/**
 * `build_operations` of `generate_openapi.py`: the objects found in the dumps of master, msdb and model
 * are merged into one operation for each (schema, name, type).
 */
module OpenApiMerge {
  import opened Wrappers
  import opened Sorting
  import opened RequestSchema

  const DATABASES: seq<string> := ["master", "msdb", "model"]

  datatype Identity = Identity(schemaName: string, name: string, typeDesc: string)

  datatype ParamRow = ParamRow(schemaName: string, objectName: string, param: SqlParam)

  datatype ResultRow = ResultRow(
    schemaName: string,
    objectName: string,
    status: Option<string>,
    columnName: Option<string>,
    errorMessage: Option<string>)

  /** One database's four dump files. */
  datatype Dump = Dump(
    objects: seq<Identity>,
    params: seq<ParamRow>,
    resultRows: seq<ResultRow>,
    fmtonly: map<(string, string), seq<string>>)

  /** What one database says about an object: parameters, described rows, FMTONLY columns. */
  datatype Evidence = Evidence(params: seq<SqlParam>, rows: seq<ResultRow>, columns: seq<string>)

  datatype ResultSet =
    | Described(rows: seq<ResultRow>)
    | Fmtonly(columns: seq<string>)
    | NoResultSet
    | Unknown(error: Option<string>)

  datatype Operation = Operation(id: Identity, databases: seq<string>, params: seq<SqlParam>, resultSet: ResultSet) {
    predicate HasColumns() { resultSet.Described? || resultSet.Fmtonly? }

    predicate HasParams() { exists i :: 0 <= i < |params| && !params[i].isOutput }
  }

  // ----- evidence

  /** `params_by_object.get(...)`: the rows of one object, in dump order. */
  function ParamsOf(rows: seq<ParamRow>, id: Identity): seq<SqlParam> {
    if rows == [] then []
    else
      var last := rows[|rows| - 1];
      ParamsOf(rows[..|rows| - 1], id)
      + if last.schemaName == id.schemaName && last.objectName == id.name then [last.param] else []
  }

  function RowsOf(rows: seq<ResultRow>, id: Identity): seq<ResultRow> {
    if rows == [] then []
    else
      var last := rows[|rows| - 1];
      RowsOf(rows[..|rows| - 1], id)
      + if last.schemaName == id.schemaName && last.objectName == id.name then [last] else []
  }

  function EvidenceIn(dump: Dump, id: Identity): Evidence {
    Evidence(
      ParamsOf(dump.params, id),
      RowsOf(dump.resultRows, id),
      if (id.schemaName, id.name) in dump.fmtonly then dump.fmtonly[(id.schemaName, id.name)] else [])
  }

  predicate Named(row: ResultRow) {
    row.columnName.Some? && row.columnName.value != ""
  }

  /** `candidate_resultset_tier`. */
  function ResultSetTier(e: Evidence): (nat, ResultSet) {
    var status := if e.rows != [] then e.rows[0].status else None;
    if status == Some("described") && exists i :: 0 <= i < |e.rows| && Named(e.rows[i]) then (4, Described(e.rows))
    else if e.columns != [] then (3, Fmtonly(e.columns))
    else if status == Some("no_result_set") || status == Some("described") then (2, NoResultSet)
    else if status == Some("unknown") then (1, Unknown(e.rows[0].errorMessage))
    else (0, Unknown(None))
  }

  // ----- what the rows of an object are

  function ParamAbout(rows: seq<ParamRow>, id: Identity): nat -> bool {
    (i: nat) => i < |rows| && rows[i].schemaName == id.schemaName && rows[i].objectName == id.name
  }

  function RowAbout(rows: seq<ResultRow>, id: Identity): nat -> bool {
    (i: nat) => i < |rows| && rows[i].schemaName == id.schemaName && rows[i].objectName == id.name
  }

  /** An object's parameters are those of the rows with its schema and its name, in dump order. */
  lemma {:induction false} ParamsOfPicks(rows: seq<ParamRow>, id: Identity, n: nat) returns (at: seq<nat>)
    requires n <= |rows|
    ensures Picks(at, n, ParamAbout(rows, id)) && |ParamsOf(rows[..n], id)| == |at|
    ensures forall k :: 0 <= k < |at| ==> at[k] < |rows| && ParamsOf(rows[..n], id)[k] == rows[at[k]].param
  {
    hide Picks;
    at := [];
    if n == 0 {
      assert Picks(at, 0, ParamAbout(rows, id)) by { PicksNothing(ParamAbout(rows, id)); }
    } else {
      at := ParamsOfPicks(rows, id, n - 1);
      assert rows[..n][..n - 1] == rows[..n - 1];
      PicksNext(at, n - 1, ParamAbout(rows, id));
      at := if ParamAbout(rows, id)(n - 1) then at + [n - 1] else at;
    }
  }

  lemma {:induction false} RowsOfPicks(rows: seq<ResultRow>, id: Identity, n: nat) returns (at: seq<nat>)
    requires n <= |rows|
    ensures Picks(at, n, RowAbout(rows, id)) && |RowsOf(rows[..n], id)| == |at|
    ensures forall k :: 0 <= k < |at| ==> at[k] < |rows| && RowsOf(rows[..n], id)[k] == rows[at[k]]
  {
    hide Picks;
    at := [];
    if n == 0 {
      assert Picks(at, 0, RowAbout(rows, id)) by { PicksNothing(RowAbout(rows, id)); }
    } else {
      at := RowsOfPicks(rows, id, n - 1);
      assert rows[..n][..n - 1] == rows[..n - 1];
      PicksNext(at, n - 1, RowAbout(rows, id));
      at := if RowAbout(rows, id)(n - 1) then at + [n - 1] else at;
    }
  }

  // ----- which result set is to be documented

  /** The rows were described, and at least one of them has a column name. */
  predicate SaysDescribed(e: Option<Evidence>) {
    && e.Some? && e.value.rows != [] && e.value.rows[0].status == Some("described")
    && exists i :: 0 <= i < |e.value.rows| && e.value.rows[i].columnName !in {None, Some("")}
  }

  predicate SaysColumns(e: Option<Evidence>) {
    e.Some? && e.value.columns != []
  }

  predicate HasStatus(e: Option<Evidence>, statuses: set<string>) {
    e.Some? && e.value.rows != [] && e.value.rows[0].status.Some? && e.value.rows[0].status.value in statuses
  }

  /**
   * Over the databases in priority order: the first described rows; else the first FMTONLY columns; else
   * "no result set" if anyone confirms it; else the first error; else nothing is known.
   */
  predicate IsResultSetOf(es: seq<Option<Evidence>>, resultSet: ResultSet) {
    if exists k :: 0 <= k < |es| && SaysDescribed(es[k]) then
      exists k :: 0 <= k < |es| && SaysDescribed(es[k]) && resultSet == Described(es[k].value.rows)
        && forall j :: 0 <= j < k ==> !SaysDescribed(es[j])
    else if exists k :: 0 <= k < |es| && SaysColumns(es[k]) then
      exists k :: 0 <= k < |es| && SaysColumns(es[k]) && resultSet == Fmtonly(es[k].value.columns)
        && forall j :: 0 <= j < k ==> !SaysColumns(es[j])
    else if exists k :: 0 <= k < |es| && HasStatus(es[k], {"no_result_set", "described"}) then
      resultSet == NoResultSet
    else if exists k :: 0 <= k < |es| && HasStatus(es[k], {"unknown"}) then
      exists k :: 0 <= k < |es| && HasStatus(es[k], {"unknown"})
        && resultSet == Unknown(es[k].value.rows[0].errorMessage)
        && forall j :: 0 <= j < k ==> !HasStatus(es[j], {"unknown"})
    else resultSet == Unknown(None)
  }

  /** What the five tiers mean. */
  predicate TierFacts(e: Option<Evidence>, rank: nat, info: ResultSet)
    requires e.Some?
  {
    && rank <= 4
    && (rank == 4 <==> SaysDescribed(e)) && (rank == 4 ==> info == Described(e.value.rows))
    && (rank == 3 <==> !SaysDescribed(e) && SaysColumns(e)) && (rank == 3 ==> info == Fmtonly(e.value.columns))
    && (rank <= 2 ==> (rank == 2 <==> HasStatus(e, {"no_result_set", "described"})))
    && (rank == 2 ==> info == NoResultSet)
    && (rank <= 1 ==> (rank == 1 <==> HasStatus(e, {"unknown"})))
    && (rank == 1 ==> e.value.rows != [] && info == Unknown(e.value.rows[0].errorMessage))
    && (rank == 0 ==> info == Unknown(None))
  }

  lemma TierMeans(e: Evidence)
    ensures TierFacts(Some(e), ResultSetTier(e).0, ResultSetTier(e).1)
  {
    forall i | 0 <= i < |e.rows| ensures Named(e.rows[i]) <==> e.rows[i].columnName !in {None, Some("")} {}
  }

  lemma NothingSaysNothing(e: Option<Evidence>)
    requires e == None
    ensures !SaysDescribed(e) && !SaysColumns(e)
    ensures !HasStatus(e, {"no_result_set", "described"}) && !HasStatus(e, {"unknown"})
  {}

  /** Evidence of rank `rank` or below says no more than that rank. */
  lemma SaysNoMore(e: Option<Evidence>, rank: nat)
    requires e.Some? ==> ResultSetTier(e.value).0 <= rank
    ensures rank < 4 ==> !SaysDescribed(e)
    ensures rank < 3 ==> !SaysColumns(e)
    ensures rank < 2 ==> !HasStatus(e, {"no_result_set", "described"})
    ensures rank < 1 ==> !HasStatus(e, {"unknown"})
  {
    hide ResultSetTier, SaysDescribed, SaysColumns, HasStatus;
    match e
    case Some(evidence) => TierMeans(evidence);
    case None => NothingSaysNothing(e);
  }

  /** The first evidence of maximal tier is what is to be documented. */
  lemma FirstOfMaximalTier(es: seq<Option<Evidence>>, best: nat)
    requires best < |es| && es[best].Some?
    requires forall j :: 0 <= j < |es| && es[j].Some? ==>
      && ResultSetTier(es[j].value).0 <= ResultSetTier(es[best].value).0
      && (j < best ==> ResultSetTier(es[j].value).0 < ResultSetTier(es[best].value).0)
    ensures IsResultSetOf(es, ResultSetTier(es[best].value).1)
  {
    hide ResultSetTier, SaysDescribed, SaysColumns, HasStatus;
    var rank := ResultSetTier(es[best].value).0;
    TierMeans(es[best].value);
    assert es[best] == Some(es[best].value);
    forall j | 0 <= j < |es|
      ensures rank < 4 ==> !SaysDescribed(es[j])
      ensures rank < 3 ==> !SaysColumns(es[j])
      ensures rank < 2 ==> !HasStatus(es[j], {"no_result_set", "described"})
      ensures rank < 1 ==> !HasStatus(es[j], {"unknown"})
    {
      SaysNoMore(es[j], rank);
    }
    if rank > 0 {
      forall j | 0 <= j < best
        ensures rank == 4 ==> !SaysDescribed(es[j])
        ensures rank == 3 ==> !SaysColumns(es[j])
        ensures rank == 1 ==> !HasStatus(es[j], {"unknown"})
      {
        SaysNoMore(es[j], rank - 1);
      }
    }
  }

  // ----- the registry

  datatype Entry = Entry(databases: seq<string>, candidates: map<string, Evidence>)

  /** The dict with its insertion order. */
  datatype Registry = Registry(keys: seq<Identity>, entries: map<Identity, Entry>)

  /** One object found in one database. */
  datatype Sighting = Sighting(db: string, id: Identity, evidence: Evidence)

  const EMPTY := Registry([], map[])

  function Register(r: Registry, s: Sighting): Registry {
    var entry := if s.id in r.entries then r.entries[s.id] else Entry([], map[]);
    Registry(
      if s.id in r.entries then r.keys else r.keys + [s.id],
      r.entries[s.id := Entry(entry.databases + [s.db], entry.candidates[s.db := s.evidence])])
  }

  function RegisterAll(sightings: seq<Sighting>): Registry {
    if sightings == [] then EMPTY
    else Register(RegisterAll(sightings[..|sightings| - 1]), sightings[|sightings| - 1])
  }

  function SightingsIn(db: string, dump: Dump, objects: seq<Identity>): (r: seq<Sighting>)
    ensures |r| == |objects|
    ensures forall i :: 0 <= i < |r| ==> r[i] == Sighting(db, objects[i], EvidenceIn(dump, objects[i]))
  {
    seq(|objects|, i requires 0 <= i < |objects| => Sighting(db, objects[i], EvidenceIn(dump, objects[i])))
  }

  /** Everything found in the first `n` databases, in order. */
  function Sightings(dumps: seq<Dump>, n: nat): seq<Sighting>
    requires n <= |dumps| && n <= |DATABASES|
  {
    if n == 0 then []
    else Sightings(dumps, n - 1) + SightingsIn(DATABASES[n - 1], dumps[n - 1], dumps[n - 1].objects)
  }

  /** The databases of an object's sightings, in order, repeated if a dump repeats the object. */
  function DatabasesOf(sightings: seq<Sighting>, id: Identity): seq<string> {
    if sightings == [] then []
    else
      var last := sightings[|sightings| - 1];
      DatabasesOf(sightings[..|sightings| - 1], id) + if last.id == id then [last.db] else []
  }

  predicate NoRepeats<T(==)>(s: seq<T>) {
    forall i, j :: 0 <= i < j < |s| ==> s[i] != s[j]
  }

  lemma {:induction false} RegistryKeys(sightings: seq<Sighting>)
    ensures var r := RegisterAll(sightings);
            && NoRepeats(r.keys)
            && (forall id :: id in r.keys <==> id in r.entries)
            && (forall id :: id in r.entries <==> exists i :: 0 <= i < |sightings| && sightings[i].id == id)
  {
    if sightings != [] {
      var init, last := sightings[..|sightings| - 1], sightings[|sightings| - 1];
      RegistryKeys(init);
      var r := RegisterAll(sightings);
      forall id | id in r.entries ensures exists i :: 0 <= i < |sightings| && sightings[i].id == id {
        if id != last.id {
          var i :| 0 <= i < |init| && init[i].id == id;
          assert sightings[i].id == id;
        } else {
          assert sightings[|sightings| - 1].id == id;
        }
      }
      forall i | 0 <= i < |sightings| ensures sightings[i].id in r.entries {
        if i < |init| {
          assert init[i].id in RegisterAll(init).entries;
        }
      }
    }
  }

  lemma {:induction false} RegistryEntry(sightings: seq<Sighting>, id: Identity)
    requires id in RegisterAll(sightings).entries
    ensures var entry := RegisterAll(sightings).entries[id];
            && entry.databases == DatabasesOf(sightings, id)
            && (forall db :: db in entry.candidates <==> db in entry.databases)
  {
    var init, last := sightings[..|sightings| - 1], sightings[|sightings| - 1];
    if id in RegisterAll(init).entries {
      RegistryEntry(init, id);
    } else {
      UnseenHasNoDatabases(init, id);
    }
  }

  lemma {:induction false} UnseenHasNoDatabases(sightings: seq<Sighting>, id: Identity)
    requires id !in RegisterAll(sightings).entries
    ensures DatabasesOf(sightings, id) == []
  {
    if sightings != [] {
      UnseenHasNoDatabases(sightings[..|sightings| - 1], id);
    }
  }

  /** A stored candidate is the evidence of some sighting of that object in that database. */
  lemma {:induction false} RegistryCandidate(sightings: seq<Sighting>, id: Identity, db: string) returns (i: nat)
    requires id in RegisterAll(sightings).entries && db in RegisterAll(sightings).entries[id].candidates
    ensures i < |sightings| && sightings[i].id == id && sightings[i].db == db
    ensures RegisterAll(sightings).entries[id].candidates[db] == sightings[i].evidence
  {
    var init, last := sightings[..|sightings| - 1], sightings[|sightings| - 1];
    if last.id == id && last.db == db {
      i := |sightings| - 1;
    } else {
      i := RegistryCandidate(init, id, db);
    }
  }

  // ----- what the merge promises, in terms of the dumps alone

  ghost function Identities(dumps: seq<Dump>): set<Identity> {
    set k, id | 0 <= k < |dumps| && id in dumps[k].objects :: id
  }

  predicate Holds(dumps: seq<Dump>, k: nat, id: Identity) {
    k < |dumps| && id in dumps[k].objects
  }

  /** The parameters of the first database, in priority order, that has any. */
  predicate ParamsFromFirst(dumps: seq<Dump>, id: Identity, params: seq<SqlParam>) {
    if params == [] then forall k :: 0 <= k < |dumps| && Holds(dumps, k, id) ==> ParamsOf(dumps[k].params, id) == []
    else exists k :: 0 <= k < |dumps| && Holds(dumps, k, id) && ParamsOf(dumps[k].params, id) == params
           && forall j :: 0 <= j < k && Holds(dumps, j, id) ==> ParamsOf(dumps[j].params, id) == []
  }

  /** What each database that holds the object says about it. */
  function HolderEvidence(dumps: seq<Dump>, id: Identity): (es: seq<Option<Evidence>>)
    ensures |es| == |dumps|
    ensures forall k :: 0 <= k < |dumps| ==>
      es[k] == if id !in dumps[k].objects then None
               else Some(Evidence(
                      ParamsOf(dumps[k].params, id), RowsOf(dumps[k].resultRows, id),
                      if (id.schemaName, id.name) in dumps[k].fmtonly then dumps[k].fmtonly[(id.schemaName, id.name)]
                      else []))
  {
    seq(|dumps|, k requires 0 <= k < |dumps| =>
      if id in dumps[k].objects then Some(EvidenceIn(dumps[k], id)) else None)
  }

  /** Each database once for every time its dump lists the object, in alphabetical order. */
  predicate ListsHolders(dumps: seq<Dump>, id: Identity, databases: seq<string>)
    requires |dumps| == |DATABASES|
  {
    && (forall k :: 0 <= k < |dumps| ==> Count(databases, DATABASES[k]) == Count(dumps[k].objects, id))
    && (forall i :: 0 <= i < |databases| ==> databases[i] in DATABASES)
    && Sorted(databases, StringLe)
  }

  predicate Documents(dumps: seq<Dump>, op: Operation)
    requires |dumps| == |DATABASES|
  {
    && ListsHolders(dumps, op.id, op.databases)
    && ParamsFromFirst(dumps, op.id, op.params)
    && IsResultSetOf(HolderEvidence(dumps, op.id), op.resultSet)
  }

  /** An extended procedure about which no holder knows a parameter or a column. */
  predicate Undocumented(dumps: seq<Dump>, id: Identity) {
    && id.typeDesc == "EXTENDED_STORED_PROCEDURE"
    && forall k :: 0 <= k < |dumps| && Holds(dumps, k, id) ==>
         && ParamsOf(dumps[k].params, id) == []
         && !SaysDescribed(HolderEvidence(dumps, id)[k]) && !SaysColumns(HolderEvidence(dumps, id)[k])
  }

  // ----- the registry in terms of the dumps

  lemma {:induction false} SightingOrigin(dumps: seq<Dump>, n: nat, i: nat) returns (k: nat, m: nat)
    requires n <= |dumps| && n <= |DATABASES| && i < |Sightings(dumps, n)|
    ensures k < n && m < |dumps[k].objects|
    ensures Sightings(dumps, n)[i]
         == Sighting(DATABASES[k], dumps[k].objects[m], EvidenceIn(dumps[k], dumps[k].objects[m]))
  {
    var before := Sightings(dumps, n - 1);
    if i < |before| {
      k, m := SightingOrigin(dumps, n - 1, i);
    } else {
      k, m := n - 1, i - |before|;
    }
  }

  lemma {:induction false} DatabasesOfConcat(a: seq<Sighting>, b: seq<Sighting>, id: Identity)
    ensures DatabasesOf(a + b, id) == DatabasesOf(a, id) + DatabasesOf(b, id)
  {
    if b == [] {
      assert a + b == a;
    } else {
      var init, last := b[..|b| - 1], b[|b| - 1];
      assert (a + b)[..|a + b| - 1] == a + init;
      DatabasesOfConcat(a, init, id);
    }
  }

  lemma SightingsOfOneMore(db: string, dump: Dump, objects: seq<Identity>, last: Identity)
    ensures SightingsIn(db, dump, objects + [last])
         == SightingsIn(db, dump, objects) + [Sighting(db, last, EvidenceIn(dump, last))]
  {
    hide EvidenceIn;
  }

  lemma DatabasesOfOneMore(sightings: seq<Sighting>, s: Sighting, id: Identity)
    ensures DatabasesOf(sightings + [s], id) == DatabasesOf(sightings, id) + if s.id == id then [s.db] else []
  {
    assert (sightings + [s])[..|sightings|] == sightings;
  }

  lemma {:induction false} CountInOneDump(db: string, dump: Dump, objects: seq<Identity>, id: Identity, x: string)
    ensures Count(DatabasesOf(SightingsIn(db, dump, objects), id), x) == if x == db then Count(objects, id) else 0
  {
    hide SightingsIn, DatabasesOf, EvidenceIn, Count;
    if objects == [] {
      NothingInNoObjects(db, dump, id, x);
    } else {
      var init, last := objects[..|objects| - 1], objects[|objects| - 1];
      var before := SightingsIn(db, dump, init);
      assert objects == init + [last];
      CountInOneDump(db, dump, init, id, x);
      SightingsOfOneMore(db, dump, init, last);
      DatabasesOfOneMore(before, Sighting(db, last, EvidenceIn(dump, last)), id);
      CountAppend(init, last, id);
      CountAppend(DatabasesOf(before, id), db, x);
      assert DatabasesOf(before, id) + [] == DatabasesOf(before, id);
    }
  }

  lemma NothingInNoObjects(db: string, dump: Dump, id: Identity, x: string)
    ensures Count(DatabasesOf(SightingsIn(db, dump, []), id), x) == 0 && Count([], id) == 0
  {}

  lemma DatabasesDiffer(j: nat, k: nat)
    requires j < |DATABASES| && k < |DATABASES| && j != k
    ensures DATABASES[j] != DATABASES[k]
  {
    assert DATABASES[0] == "master" && DATABASES[1] == "msdb" && DATABASES[2] == "model";
    assert "master"[1] != "msdb"[1] && "master"[1] != "model"[1] && "msdb"[1] != "model"[1];
  }

  lemma {:induction false} CountOfHolder(dumps: seq<Dump>, n: nat, id: Identity, k: nat)
    requires n <= |dumps| && n <= |DATABASES| && k < n
    ensures Count(DatabasesOf(Sightings(dumps, n), id), DATABASES[k]) == Count(dumps[k].objects, id)
  {
    hide DatabasesOf, SightingsIn, Sightings, Count;
    SightingsNext(dumps, n - 1);
    var before, here := Sightings(dumps, n - 1), SightingsIn(DATABASES[n - 1], dumps[n - 1], dumps[n - 1].objects);
    DatabasesOfConcat(before, here, id);
    CountConcat(DatabasesOf(before, id), DatabasesOf(here, id), DATABASES[k]);
    CountInOneDump(DATABASES[n - 1], dumps[n - 1], dumps[n - 1].objects, id, DATABASES[k]);
    if k < n - 1 {
      DatabasesDiffer(k, n - 1);
      CountOfHolder(dumps, n - 1, id, k);
    } else {
      LaterDatabaseUnseen(dumps, n - 1, id, k);
    }
  }

  lemma {:induction false} LaterDatabaseUnseen(dumps: seq<Dump>, n: nat, id: Identity, k: nat)
    requires n <= |dumps| && n <= k < |DATABASES|
    ensures Count(DatabasesOf(Sightings(dumps, n), id), DATABASES[k]) == 0
  {
    if n > 0 {
      var before, here := Sightings(dumps, n - 1), SightingsIn(DATABASES[n - 1], dumps[n - 1], dumps[n - 1].objects);
      DatabasesDiffer(k, n - 1);
      LaterDatabaseUnseen(dumps, n - 1, id, k);
      DatabasesOfConcat(before, here, id);
      CountConcat(DatabasesOf(before, id), DatabasesOf(here, id), DATABASES[k]);
      CountInOneDump(DATABASES[n - 1], dumps[n - 1], dumps[n - 1].objects, id, DATABASES[k]);
    }
  }

  lemma {:induction false} DatabasesAreKnown(dumps: seq<Dump>, n: nat, id: Identity, i: nat)
    requires n <= |dumps| && n <= |DATABASES| && i < |DatabasesOf(Sightings(dumps, n), id)|
    ensures DatabasesOf(Sightings(dumps, n), id)[i] in DATABASES
  {
    SomeSightingNames(Sightings(dumps, n), id, i);
    var j :| 0 <= j < |Sightings(dumps, n)| && Sightings(dumps, n)[j].db == DatabasesOf(Sightings(dumps, n), id)[i];
    var k, m := SightingOrigin(dumps, n, j);
  }

  lemma {:induction false} SomeSightingNames(sightings: seq<Sighting>, id: Identity, i: nat)
    requires i < |DatabasesOf(sightings, id)|
    ensures exists j :: 0 <= j < |sightings| && sightings[j].db == DatabasesOf(sightings, id)[i]
  {
    var init := sightings[..|sightings| - 1];
    if i < |DatabasesOf(init, id)| {
      SomeSightingNames(init, id, i);
      var j :| 0 <= j < |init| && init[j].db == DatabasesOf(init, id)[i];
      assert sightings[j].db == DatabasesOf(sightings, id)[i];
    } else {
      assert sightings[|sightings| - 1].db == DatabasesOf(sightings, id)[i];
    }
  }

  lemma ListedIffHeld(dumps: seq<Dump>, id: Identity, k: nat)
    requires |dumps| == |DATABASES| && k < |dumps|
    ensures DATABASES[k] in DatabasesOf(Sightings(dumps, |dumps|), id) <==> Holds(dumps, k, id)
  {
    CountOfHolder(dumps, |dumps|, id, k);
    CountIsMembership(DatabasesOf(Sightings(dumps, |dumps|), id), DATABASES[k]);
    CountIsMembership(dumps[k].objects, id);
  }

  lemma CandidateIsEvidence(dumps: seq<Dump>, id: Identity, k: nat)
    requires |dumps| == |DATABASES| && k < |dumps| && id in RegisterAll(Sightings(dumps, |dumps|)).entries
    requires DATABASES[k] in RegisterAll(Sightings(dumps, |dumps|)).entries[id].candidates
    ensures RegisterAll(Sightings(dumps, |dumps|)).entries[id].candidates[DATABASES[k]] == EvidenceIn(dumps[k], id)
  {
    var i := RegistryCandidate(Sightings(dumps, |dumps|), id, DATABASES[k]);
    var j, m := SightingOrigin(dumps, |dumps|, i);
    if j != k {
      DatabasesDiffer(j, k);
    }
  }

  /** In the registry of all dumps an object's candidates are its holders, each with its own evidence. */
  lemma CandidatesAreHolders(dumps: seq<Dump>, id: Identity, k: nat)
    requires |dumps| == |DATABASES| && k < |dumps| && id in RegisterAll(Sightings(dumps, |dumps|)).entries
    ensures var candidates := RegisterAll(Sightings(dumps, |dumps|)).entries[id].candidates;
            && (DATABASES[k] in candidates <==> Holds(dumps, k, id))
            && (Holds(dumps, k, id) ==> candidates[DATABASES[k]] == EvidenceIn(dumps[k], id))
  {
    RegistryEntry(Sightings(dumps, |dumps|), id);
    ListedIffHeld(dumps, id, k);
    if Holds(dumps, k, id) {
      CandidateIsEvidence(dumps, id, k);
    }
  }

  lemma SortedDatabasesAreKnown(dumps: seq<Dump>, id: Identity, db: string)
    requires |dumps| == |DATABASES| && db in Sort(DatabasesOf(Sightings(dumps, |dumps|), id), StringLe)
    ensures db in DATABASES
  {
    var databases := DatabasesOf(Sightings(dumps, |dumps|), id);
    SortPermutes(databases, StringLe);
    var j :| 0 <= j < |databases| && databases[j] == db;
    DatabasesAreKnown(dumps, |dumps|, id, j);
  }

  lemma HoldersAreListed(dumps: seq<Dump>, id: Identity)
    requires |dumps| == |DATABASES|
    ensures ListsHolders(dumps, id, Sort(DatabasesOf(Sightings(dumps, |dumps|), id), StringLe))
  {
    var databases := DatabasesOf(Sightings(dumps, |dumps|), id);
    var sorted := Sort(databases, StringLe);
    StringLeIsPreorder();
    SortSorts(databases, StringLe);
    forall k | 0 <= k < |dumps| ensures Count(sorted, DATABASES[k]) == Count(dumps[k].objects, id) {
      SortCounts(databases, StringLe, DATABASES[k]);
      CountOfHolder(dumps, |dumps|, id, k);
    }
    forall i | 0 <= i < |sorted| ensures sorted[i] in DATABASES {
      SortedDatabasesAreKnown(dumps, id, sorted[i]);
    }
  }

  // ----- the code

  /** `first_nonempty` over the candidates' parameters, in priority order from database `k` on. */
  function FirstNonempty(candidates: map<string, Evidence>, k: nat): seq<SqlParam>
    requires k <= |DATABASES|
    decreases |DATABASES| - k
  {
    if k == |DATABASES| then []
    else if DATABASES[k] in candidates && candidates[DATABASES[k]].params != [] then candidates[DATABASES[k]].params
    else FirstNonempty(candidates, k + 1)
  }

  /** The candidates in priority order. */
  function CandidateList(candidates: map<string, Evidence>): (es: seq<Option<Evidence>>)
    ensures |es| == |DATABASES|
    ensures forall k :: 0 <= k < |es| ==>
      es[k] == if DATABASES[k] in candidates then Some(candidates[DATABASES[k]]) else None
  {
    seq(|DATABASES|, k requires 0 <= k < |DATABASES| =>
      if DATABASES[k] in candidates then Some(candidates[DATABASES[k]]) else None)
  }

  lemma NobodySaysAnything(es: seq<Option<Evidence>>)
    requires forall k :: 0 <= k < |es| ==> es[k] == None
    ensures IsResultSetOf(es, Unknown(None))
  {}

  /** `choose_best_resultset`: what the candidates call for. */
  method ChooseBestResultSet(candidates: map<string, Evidence>) returns (best: ResultSet)
    ensures IsResultSetOf(CandidateList(candidates), best)
  {
    hide ResultSetTier, IsResultSetOf;
    var bestRank: int := -1;
    best := Unknown(None);
    ghost var source: nat := 0;
    for i := 0 to |DATABASES|
      invariant bestRank == -1 ==> best == Unknown(None) && forall k :: 0 <= k < i ==> DATABASES[k] !in candidates
      invariant bestRank != -1 ==>
        0 <= source < i && IsBestCandidate(candidates, source, i)
        && bestRank == ResultSetTier(candidates[DATABASES[source]]).0
        && best == ResultSetTier(candidates[DATABASES[source]]).1
    {
      if DATABASES[i] in candidates {
        var (rank, info) := ResultSetTier(candidates[DATABASES[i]]);
        if rank > bestRank {
          bestRank, best := rank, info;
          source := i;
        }
      }
    }
    if bestRank == -1 {
      NobodySaysAnything(CandidateList(candidates));
    } else {
      BestCandidateSays(candidates, source);
    }
  }

  lemma BestCandidateSays(candidates: map<string, Evidence>, k: nat)
    requires IsBestCandidate(candidates, k, |DATABASES|)
    ensures IsResultSetOf(CandidateList(candidates), ResultSetTier(candidates[DATABASES[k]]).1)
  {
    hide ResultSetTier, IsResultSetOf;
    FirstOfMaximalTier(CandidateList(candidates), k);
  }

  /** Among the first `n` databases, `k`'s candidate is of maximal tier and no earlier one equals it. */
  predicate IsBestCandidate(candidates: map<string, Evidence>, k: nat, n: nat)
    requires n <= |DATABASES|
  {
    && k < n && DATABASES[k] in candidates
    && forall j :: 0 <= j < n && DATABASES[j] in candidates ==>
         && ResultSetTier(candidates[DATABASES[j]]).0 <= ResultSetTier(candidates[DATABASES[k]]).0
         && (j < k ==> ResultSetTier(candidates[DATABASES[j]]).0 < ResultSetTier(candidates[DATABASES[k]]).0)
  }

  lemma RegisterNext(before: seq<Sighting>, s: Sighting)
    ensures RegisterAll(before + [s]) == Register(RegisterAll(before), s)
  {
    assert (before + [s])[..|before|] == before;
  }

  /** The inner loop: one database's objects. */
  method RegisterDump(registry: Registry, db: string, dump: Dump, ghost before: seq<Sighting>)
    returns (extended: Registry)
    requires registry == RegisterAll(before)
    ensures extended == RegisterAll(before + SightingsIn(db, dump, dump.objects))
  {
    hide Register, RegisterAll, EvidenceIn;
    extended := registry;
    ghost var here := SightingsIn(db, dump, dump.objects);
    assert before + here[..0] == before;
    for j := 0 to |dump.objects|
      invariant extended == RegisterAll(before + here[..j])
    {
      var id := dump.objects[j];
      RegisterNext(before + here[..j], here[j]);
      assert before + here[..j] + [here[j]] == before + here[..j + 1];
      extended := Register(extended, Sighting(db, id, EvidenceIn(dump, id)));
    }
    assert here[..|dump.objects|] == here;
  }

  lemma NothingSighted(dumps: seq<Dump>)
    ensures Sightings(dumps, 0) == [] && RegisterAll([]) == EMPTY
  {}

  lemma SightingsNext(dumps: seq<Dump>, n: nat)
    requires n < |dumps| && n < |DATABASES|
    ensures Sightings(dumps, n + 1)
         == Sightings(dumps, n) + SightingsIn(DATABASES[n], dumps[n], dumps[n].objects)
  {
    hide SightingsIn;
  }

  /** The first loop nest of `build_operations`. */
  method BuildRegistry(dumps: seq<Dump>) returns (registry: Registry)
    requires |dumps| == |DATABASES|
    ensures registry == RegisterAll(Sightings(dumps, |dumps|))
  {
    hide RegisterAll, SightingsIn;
    registry := EMPTY;
    NothingSighted(dumps);
    for i := 0 to |DATABASES|
      invariant registry == RegisterAll(Sightings(dumps, i))
    {
      SightingsNext(dumps, i);
      registry := RegisterDump(registry, DATABASES[i], dumps[i], Sightings(dumps, i));
    }
  }

  lemma {:induction false} FirstNonemptyIsFromFirst(
      dumps: seq<Dump>, id: Identity, candidates: map<string, Evidence>, k: nat)
    requires |dumps| == |DATABASES| && k <= |dumps|
    requires forall j :: 0 <= j < |dumps| ==>
      (DATABASES[j] in candidates <==> Holds(dumps, j, id))
      && (Holds(dumps, j, id) ==> candidates[DATABASES[j]] == EvidenceIn(dumps[j], id))
    requires forall j :: 0 <= j < k && Holds(dumps, j, id) ==> EvidenceIn(dumps[j], id).params == []
    ensures ParamsFromFirst(dumps, id, FirstNonempty(candidates, k))
    decreases |dumps| - k
  {
    if k < |dumps| {
      if DATABASES[k] in candidates && candidates[DATABASES[k]].params != [] {
        assert Holds(dumps, k, id) && EvidenceIn(dumps[k], id).params == FirstNonempty(candidates, k);
      } else {
        FirstNonemptyIsFromFirst(dumps, id, candidates, k + 1);
      }
    }
  }

  lemma CandidatesAreEvidence(dumps: seq<Dump>, id: Identity, candidates: map<string, Evidence>)
    requires |dumps| == |DATABASES|
    requires forall j :: 0 <= j < |dumps| ==>
      (DATABASES[j] in candidates <==> Holds(dumps, j, id))
      && (Holds(dumps, j, id) ==> candidates[DATABASES[j]] == EvidenceIn(dumps[j], id))
    ensures CandidateList(candidates) == HolderEvidence(dumps, id)
  {
    var es, fs := CandidateList(candidates), HolderEvidence(dumps, id);
    forall k | 0 <= k < |es| ensures es[k] == fs[k] {
      assert Holds(dumps, k, id) <==> id in dumps[k].objects;
    }
  }

  /** One registry entry becomes the operation the dumps call for. */
  method MakeOperation(ghost dumps: seq<Dump>, id: Identity, entry: Entry) returns (op: Operation)
    requires |dumps| == |DATABASES| && id in RegisterAll(Sightings(dumps, |dumps|)).entries
    requires entry == RegisterAll(Sightings(dumps, |dumps|)).entries[id]
    requires id in Identities(dumps)
    ensures op.id == id && Documents(dumps, op)
  {
    hide RegisterAll, Sightings, ListsHolders, ParamsFromFirst, IsResultSetOf, EvidenceIn, FirstNonempty, Sort;
    ghost var sightings := Sightings(dumps, |dumps|);
    forall k | 0 <= k < |dumps|
      ensures (DATABASES[k] in entry.candidates <==> Holds(dumps, k, id))
      ensures Holds(dumps, k, id) ==> entry.candidates[DATABASES[k]] == EvidenceIn(dumps[k], id)
    {
      CandidatesAreHolders(dumps, id, k);
    }
    RegistryEntry(sightings, id);
    HoldersAreListed(dumps, id);
    FirstNonemptyIsFromFirst(dumps, id, entry.candidates, 0);
    var resultSet := ChooseBestResultSet(entry.candidates);
    assert CandidateList(entry.candidates) == HolderEvidence(dumps, id) by {
      CandidatesAreEvidence(dumps, id, entry.candidates);
    }
    op := Operation(id, Sort(entry.databases, StringLe), FirstNonempty(entry.candidates, 0), resultSet);
  }

  // ----- counting identities

  lemma {:induction false} DistinctCount<T>(s: seq<T>)
    requires NoRepeats(s)
    ensures |set x | x in s| == |s|
  {
    if s != [] {
      var init, last := s[..|s| - 1], s[|s| - 1];
      DistinctCount(init);
      assert s == init + [last];
      assert (set x | x in s) == (set x | x in init) + {last};
    }
  }

  /** The registry's keys are the identities of the dumps, each once. */
  lemma RegistryHoldsIdentities(dumps: seq<Dump>)
    requires |dumps| == |DATABASES|
    ensures var keys := RegisterAll(Sightings(dumps, |dumps|)).keys;
            && NoRepeats(keys) && |keys| == |Identities(dumps)|
            && forall id :: id in keys <==> id in Identities(dumps)
  {
    var sightings := Sightings(dumps, |dumps|);
    var keys := RegisterAll(sightings).keys;
    RegistryKeys(sightings);
    forall id ensures id in keys <==> id in Identities(dumps) {
      if id in keys {
        var i :| 0 <= i < |sightings| && sightings[i].id == id;
        var k, m := SightingOrigin(dumps, |dumps|, i);
        assert id in dumps[k].objects;
      }
      if id in Identities(dumps) {
        var k :| 0 <= k < |dumps| && id in dumps[k].objects;
        HeldIsRegistered(dumps, id, k);
      }
    }
    DistinctCount(keys);
    assert (set id | id in keys) == Identities(dumps);
  }

  lemma HeldIsRegistered(dumps: seq<Dump>, id: Identity, k: nat)
    requires |dumps| == |DATABASES| && Holds(dumps, k, id)
    ensures id in RegisterAll(Sightings(dumps, |dumps|)).entries
  {
    ListedIffHeld(dumps, id, k);
    if id !in RegisterAll(Sightings(dumps, |dumps|)).entries {
      UnseenHasNoDatabases(Sightings(dumps, |dumps|), id);
    }
  }

  /** The test that drops an operation asks exactly whether no holder documents it. */
  lemma DroppedIffUndocumented(dumps: seq<Dump>, op: Operation)
    requires |dumps| == |DATABASES| && Documents(dumps, op)
    ensures op.id.typeDesc == "EXTENDED_STORED_PROCEDURE" && op.params == [] && !op.HasColumns()
       <==> Undocumented(dumps, op.id)
  {
    hide ListsHolders, IsResultSetOf, SaysDescribed, SaysColumns;
    var es := HolderEvidence(dumps, op.id);
    ColumnsIffSaid(es, op.resultSet);
    forall k | 0 <= k < |es| && (SaysDescribed(es[k]) || SaysColumns(es[k])) ensures Holds(dumps, k, op.id) {
      if es[k].None? {
        NothingSaysNothing(es[k]);
      }
    }
  }

  /** There are columns iff somebody has described rows or FMTONLY columns. */
  lemma ColumnsIffSaid(es: seq<Option<Evidence>>, resultSet: ResultSet)
    requires IsResultSetOf(es, resultSet)
    ensures resultSet.Described? || resultSet.Fmtonly?
       <==> exists k :: 0 <= k < |es| && (SaysDescribed(es[k]) || SaysColumns(es[k]))
  {
    hide SaysDescribed, SaysColumns, HasStatus;
  }

  function IdsOf(operations: seq<Operation>): (ids: seq<Identity>)
    ensures |ids| == |operations| && forall i :: 0 <= i < |ids| ==> ids[i] == operations[i].id
  {
    seq(|operations|, i requires 0 <= i < |operations| => operations[i].id)
  }

  /** The identities that some holder documents. */
  function DocumentedKeys(dumps: seq<Dump>, keys: seq<Identity>): seq<Identity> {
    if keys == [] then []
    else
      var last := keys[|keys| - 1];
      DocumentedKeys(dumps, keys[..|keys| - 1]) + if Undocumented(dumps, last) then [] else [last]
  }

  lemma {:induction false} DocumentedKeysSelect(dumps: seq<Dump>, keys: seq<Identity>)
    requires NoRepeats(keys)
    ensures NoRepeats(DocumentedKeys(dumps, keys))
    ensures forall id :: id in DocumentedKeys(dumps, keys) <==> id in keys && !Undocumented(dumps, id)
  {
    if keys != [] {
      var init, last := keys[..|keys| - 1], keys[|keys| - 1];
      assert keys == init + [last] && last !in init;
      DocumentedKeysSelect(dumps, init);
    }
  }

  lemma DocumentedNext(dumps: seq<Dump>, keys: seq<Identity>, i: nat, operations: seq<Operation>, op: Operation)
    requires i < |keys| && op.id == keys[i] && IdsOf(operations) == DocumentedKeys(dumps, keys[..i])
    ensures IdsOf(if Undocumented(dumps, op.id) then operations else operations + [op])
         == DocumentedKeys(dumps, keys[..i + 1])
  {
    assert keys[..i + 1][..i] == keys[..i];
    assert IdsOf(operations + [op]) == IdsOf(operations) + [op.id];
  }

  predicate DocumentsAll(dumps: seq<Dump>, operations: seq<Operation>)
    requires |dumps| == |DATABASES|
  {
    forall i :: 0 <= i < |operations| ==> Documents(dumps, operations[i])
  }

  lemma DocumentsOneMore(dumps: seq<Dump>, operations: seq<Operation>, op: Operation)
    requires |dumps| == |DATABASES| && DocumentsAll(dumps, operations) && Documents(dumps, op)
    ensures DocumentsAll(dumps, operations + [op])
  {}

  /** One key: its operation, and whether it is left out. */
  method DocumentKey(ghost dumps: seq<Dump>, id: Identity, entry: Entry) returns (op: Operation, dropped: bool)
    requires |dumps| == |DATABASES| && id in RegisterAll(Sightings(dumps, |dumps|)).entries
    requires entry == RegisterAll(Sightings(dumps, |dumps|)).entries[id]
    requires id in Identities(dumps)
    ensures op.id == id && Documents(dumps, op)
    ensures dropped <==> Undocumented(dumps, id)
  {
    op := MakeOperation(dumps, id, entry);
    dropped := id.typeDesc == "EXTENDED_STORED_PROCEDURE" && op.params == [] && !op.HasColumns();
    DroppedIffUndocumented(dumps, op);
  }

  lemma NothingToDocument(dumps: seq<Dump>, keys: seq<Identity>)
    ensures IdsOf([]) == DocumentedKeys(dumps, keys[..0])
  {}

  /** The second loop of `build_operations`. */
  method DocumentKeys(ghost dumps: seq<Dump>, registry: Registry)
    returns (operations: seq<Operation>, extendedDropped: nat)
    requires |dumps| == |DATABASES| && registry == RegisterAll(Sightings(dumps, |dumps|))
    requires forall id :: id in registry.keys ==> id in registry.entries && id in Identities(dumps)
    ensures |operations| + extendedDropped == |registry.keys|
    ensures IdsOf(operations) == DocumentedKeys(dumps, registry.keys)
    ensures DocumentsAll(dumps, operations)
  {
    hide RegisterAll, Sightings, Identities, DocumentedKeys, Undocumented, Documents;
    var keys := registry.keys;
    operations, extendedDropped := [], 0;
    NothingToDocument(dumps, keys);
    for i := 0 to |keys|
      invariant |operations| + extendedDropped == i
      invariant IdsOf(operations) == DocumentedKeys(dumps, keys[..i])
      invariant DocumentsAll(dumps, operations)
    {
      assert keys[i] in keys;
      var op, dropped := DocumentKey(dumps, keys[i], registry.entries[keys[i]]);
      DocumentedNext(dumps, keys, i, operations, op);
      if dropped {
        extendedDropped := extendedDropped + 1;
      } else {
        DocumentsOneMore(dumps, operations, op);
        operations := operations + [op];
      }
    }
    assert keys[..|keys|] == keys;
  }

  /**
   * `build_operations`: operations and dropped extended procedures together number the distinct
   * identities of the three dumps; there is one operation for each identity that some holder documents,
   * and each says what the dumps call for.
   */
  method BuildOperations(dumps: seq<Dump>) returns (operations: seq<Operation>, extendedDropped: nat)
    requires |dumps| == |DATABASES|
    ensures |operations| + extendedDropped == |Identities(dumps)|
    ensures NoRepeats(IdsOf(operations))
    ensures forall id :: id in IdsOf(operations) <==> id in Identities(dumps) && !Undocumented(dumps, id)
    ensures DocumentsAll(dumps, operations)
  {
    var registry := BuildRegistry(dumps);
    RegistryHoldsIdentities(dumps);
    RegistryKeys(Sightings(dumps, |dumps|));
    operations, extendedDropped := DocumentKeys(dumps, registry);
    DocumentedKeysSelect(dumps, registry.keys);
  }
}
