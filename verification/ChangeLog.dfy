/**
 The store of a data handler and the change log that can undo what was done to it.  A row is a map
 from the columns of its table to their values; SQL errors are `None`.
 */
module ChangeLog {
  import opened Wrappers

  type Row = map<string, string>

  datatype Key = Key(table: string, id: string)

  type Tables = map<Key, Row>

  datatype Entity = Entity(id: string, fields: Row)

  datatype Operation =
    | Insert(table: string, entities: seq<Entity>)
    | Upsert(table: string, entities: seq<Entity>)
    | Remove(table: string, ids: seq<string>)

  datatype Change =
    | Inserted(key: Key)
    | Updated(key: Key, fields: Row)
    | Deleted(key: Key, fields: Row)

  /** The columns of each table, with the values a new row has where none is given. */
  type Schema = map<string, Row>

  ghost predicate WellFormed(schema: Schema, s: Tables) {
    forall k <- s :: k.table in schema && s[k].Keys == schema[k.table].Keys
  }

  // ---------- Statements ----------

  function InsertRow(schema: Schema, s: Tables, k: Key, fields: Row): Option<Tables> {
    if k.table in schema && fields.Keys <= schema[k.table].Keys && k !in s
    then Some(s[k := schema[k.table] + fields]) else None
  }

  function UpsertRow(schema: Schema, s: Tables, k: Key, fields: Row): Option<Tables> {
    if k.table in schema && fields.Keys <= schema[k.table].Keys
    then Some(s[k := (if k in s then s[k] else schema[k.table]) + fields]) else None
  }

  function UpdateRow(s: Tables, k: Key, fields: Row): Tables {
    if k in s then s[k := s[k] + fields] else s
  }

  // ---------- Operations and the changes tracked for them ----------

  function InsertAll(schema: Schema, s: Tables, table: string, entities: seq<Entity>): Option<Tables>
    decreases |entities|
  {
    if entities == [] then Some(s)
    else
      var first := InsertRow(schema, s, Key(table, entities[0].id), entities[0].fields);
      if first == None then None else InsertAll(schema, first.value, table, entities[1..])
  }

  function UpsertAll(schema: Schema, s: Tables, table: string, entities: seq<Entity>): Option<Tables>
    decreases |entities|
  {
    if entities == [] then Some(s)
    else
      var first := UpsertRow(schema, s, Key(table, entities[0].id), entities[0].fields);
      if first == None then None else UpsertAll(schema, first.value, table, entities[1..])
  }

  function RemoveAll(s: Tables, table: string, ids: seq<string>): Tables {
    if ids == [] then s else RemoveAll(s - {Key(table, ids[0])}, table, ids[1..])
  }

  function Perform(schema: Schema, s: Tables, op: Operation): Option<Tables> {
    match op
    case Insert(table, entities) => InsertAll(schema, s, table, entities)
    case Upsert(table, entities) => UpsertAll(schema, s, table, entities)
    case Remove(table, ids) => Some(RemoveAll(s, table, ids))
  }

  /** Changes recorded before the operation is carried out, all read off the state `s` before it. */
  function Track(s: Tables, op: Operation): seq<Change> {
    match op
    case Insert(table, entities) => TrackInsert(table, entities)
    case Upsert(table, entities) => TrackUpsert(s, table, entities)
    case Remove(table, ids) => TrackDelete(s, table, ids)
  }

  function TrackInsert(table: string, entities: seq<Entity>): seq<Change> {
    if entities == [] then [] else [Inserted(Key(table, entities[0].id))] + TrackInsert(table, entities[1..])
  }

  function TrackUpsert(s: Tables, table: string, entities: seq<Entity>): seq<Change> {
    if entities == [] then []
    else
      var n := |entities| - 1;
      var k := Key(table, entities[n].id);
      TrackUpsert(s, table, entities[..n]) + [if k in s then Updated(k, s[k]) else Inserted(k)]
  }

  /** A row is read, and recorded, once however often its id is given. */
  function TrackDelete(s: Tables, table: string, ids: seq<string>): seq<Change> {
    if ids == [] then []
    else
      var k := Key(table, ids[0]);
      (if k in s then [Deleted(k, s[k])] else []) + TrackDelete(s - {k}, table, ids[1..])
  }

  // ---------- Undoing ----------

  function Undo(schema: Schema, s: Tables, change: Change): Option<Tables> {
    match change
    case Inserted(k) => Some(s - {k})
    case Updated(k, fields) => Some(UpdateRow(s, k, fields))
    case Deleted(k, fields) => InsertRow(schema, s, k, fields)
  }

  /** Takes the changes back, the latest first. */
  function UndoAll(schema: Schema, s: Tables, changes: seq<Change>): Option<Tables>
    decreases |changes|
  {
    if changes == [] then Some(s)
    else
      var last := Undo(schema, s, changes[|changes| - 1]);
      if last == None then None else UndoAll(schema, last.value, changes[..|changes| - 1])
  }

  lemma {:induction false} UndoConcat(schema: Schema, s: Tables, a: seq<Change>, b: seq<Change>)
    ensures var mid := UndoAll(schema, s, b);
            UndoAll(schema, s, a + b) == if mid == None then None else UndoAll(schema, mid.value, a)
    decreases |b|
  {
    if b == [] {
      assert a + b == a;
    } else {
      var last := Undo(schema, s, b[|b| - 1]);
      assert (a + b)[..|a + b| - 1] == a + b[..|b| - 1];
      if last != None {
        UndoConcat(schema, last.value, a, b[..|b| - 1]);
      }
    }
  }

  lemma UndoOne(schema: Schema, s: Tables, change: Change)
    ensures UndoAll(schema, s, [change]) == Undo(schema, s, change)
  {
  }

  lemma {:induction false} UndoInsert(schema: Schema, s: Tables, table: string, entities: seq<Entity>)
    requires WellFormed(schema, s) && InsertAll(schema, s, table, entities) != None
    ensures var t := InsertAll(schema, s, table, entities).value;
            WellFormed(schema, t) && UndoAll(schema, t, TrackInsert(table, entities)) == Some(s)
    decreases |entities|
  {
    if entities != [] {
      var k := Key(table, entities[0].id);
      var first := InsertRow(schema, s, k, entities[0].fields).value;
      UndoInsert(schema, first, table, entities[1..]);
      var t := InsertAll(schema, s, table, entities).value;
      UndoConcat(schema, t, [Inserted(k)], TrackInsert(table, entities[1..]));
      UndoOne(schema, first, Inserted(k));
      assert first - {k} == s;
    }
  }

  function KeysOf(table: string, entities: seq<Entity>): set<Key> {
    set e <- entities :: Key(table, e.id)
  }

  /** Outside of `keys`, `t` holds the rows of `s`. */
  ghost predicate AgreesOutside(s: Tables, t: Tables, keys: set<Key>) {
    forall k :: k !in keys ==> Get(s, k) == Get(t, k)
  }

  function Get(s: Tables, k: Key): Option<Row> {
    if k in s then Some(s[k]) else None
  }

  lemma SameRows(s: Tables, t: Tables)
    requires AgreesOutside(s, t, {})
    ensures s == t
  {
    forall k ensures k in s <==> k in t {
      assert Get(s, k) == Get(t, k);
    }
    forall k | k in s ensures s[k] == t[k] {
      assert Get(s, k) == Get(t, k);
    }
  }

  lemma {:induction false} UpsertTouches(schema: Schema, s: Tables, table: string, entities: seq<Entity>)
    requires WellFormed(schema, s) && UpsertAll(schema, s, table, entities) != None
    ensures var t := UpsertAll(schema, s, table, entities).value;
            WellFormed(schema, t) && AgreesOutside(s, t, KeysOf(table, entities))
            && s.Keys <= t.Keys
    decreases |entities|
  {
    if entities != [] {
      var first := UpsertRow(schema, s, Key(table, entities[0].id), entities[0].fields).value;
      UpsertTouches(schema, first, table, entities[1..]);
    }
  }

  /** Undoing an upsert works from any state that kept the old rows' keys and everything else. */
  lemma {:induction false} UndoUpsert(schema: Schema, s: Tables, t: Tables, table: string, entities: seq<Entity>)
    requires WellFormed(schema, s) && WellFormed(schema, t)
    requires AgreesOutside(s, t, KeysOf(table, entities)) && s.Keys <= t.Keys
    ensures UndoAll(schema, t, TrackUpsert(s, table, entities)) == Some(s)
    decreases |entities|
  {
    if entities == [] {
      assert KeysOf(table, entities) == {};
      SameRows(s, t);
    } else {
      var n := |entities| - 1;
      var k := Key(table, entities[n].id);
      var change := if k in s then Updated(k, s[k]) else Inserted(k);
      var earlier := TrackUpsert(s, table, entities[..n]);
      var u := Undo(schema, t, change).value;
      if k in s {
        assert k in t.Keys && t[k].Keys == s[k].Keys;
        assert t[k] + s[k] == s[k];
      }
      assert Get(u, k) == Get(s, k);
      assert AgreesOutside(s, u, KeysOf(table, entities[..n])) by {
        assert entities == entities[..n] + [entities[n]];
      }
      UndoUpsert(schema, s, u, table, entities[..n]);
      UndoConcat(schema, t, earlier, [change]);
      UndoOne(schema, t, change);
    }
  }

  lemma {:induction false} UndoDelete(schema: Schema, s: Tables, table: string, ids: seq<string>)
    requires WellFormed(schema, s)
    ensures var t := RemoveAll(s, table, ids);
            WellFormed(schema, t) && UndoAll(schema, t, TrackDelete(s, table, ids)) == Some(s)
    decreases |ids|
  {
    if ids != [] {
      var k := Key(table, ids[0]);
      var first := s - {k};
      UndoDelete(schema, first, table, ids[1..]);
      var t := RemoveAll(s, table, ids);
      var change := if k in s then [Deleted(k, s[k])] else [];
      UndoConcat(schema, t, change, TrackDelete(first, table, ids[1..]));
      if k in s {
        UndoOne(schema, first, Deleted(k, s[k]));
        assert schema[k.table] + s[k] == s[k];
        assert first[k := s[k]] == s;
      } else {
        assert first == s;
      }
    }
  }

  /** The changes tracked for an operation take it back exactly. */
  lemma UndoOperation(schema: Schema, s: Tables, op: Operation)
    requires WellFormed(schema, s) && Perform(schema, s, op) != None
    ensures WellFormed(schema, Perform(schema, s, op).value)
    ensures UndoAll(schema, Perform(schema, s, op).value, Track(s, op)) == Some(s)
  {
    match op
    case Insert(table, entities) => UndoInsert(schema, s, table, entities);
    case Upsert(table, entities) =>
      UpsertTouches(schema, s, table, entities);
      UndoUpsert(schema, s, UpsertAll(schema, s, table, entities).value, table, entities);
    case Remove(table, ids) => UndoDelete(schema, s, table, ids);
  }

  // ---------- What the operations do, key by key ----------

  /** The row of an entity can be written: its table exists and has all its columns. */
  ghost predicate IsRowOf(schema: Schema, table: string, e: Entity) {
    table in schema && forall column <- e.fields :: column in schema[table]
  }

  ghost predicate IdsDiffer(entities: seq<Entity>) {
    forall i, j :: 0 <= i < j < |entities| ==> entities[i].id != entities[j].id
  }

  /** An insert succeeds exactly when every entity fits its table and has an id of its own that is new. */
  lemma {:induction false} InsertIff(schema: Schema, s: Tables, table: string, entities: seq<Entity>)
    ensures Perform(schema, s, Insert(table, entities)) != None
            <==> IdsDiffer(entities) && forall e <- entities :: IsRowOf(schema, table, e) && Key(table, e.id) !in s
    decreases |entities|
  {
    if entities != [] {
      var e, rest := entities[0], entities[1..];
      var first := InsertRow(schema, s, Key(table, e.id), e.fields);
      if first != None {
        InsertIff(schema, first.value, table, rest);
      }
    }
  }

  /** The row of an entity that has just been inserted. */
  ghost predicate HoldsNew(schema: Schema, t: Tables, table: string, e: Entity) {
    table in schema && Get(t, Key(table, e.id)) == Some(schema[table] + e.fields)
  }

  /** After an insert each entity has a row of its fields and the default values, and all other rows are as before. */
  lemma {:induction false} InsertMeans(schema: Schema, s: Tables, table: string, entities: seq<Entity>)
    requires Perform(schema, s, Insert(table, entities)) != None
    ensures var t := Perform(schema, s, Insert(table, entities)).value;
            && (forall e <- entities :: HoldsNew(schema, t, table, e))
            && (forall k: Key :: k !in KeysOf(table, entities) ==> Get(t, k) == Get(s, k))
    decreases |entities|
  {
    if entities != [] {
      var e, rest := entities[0], entities[1..];
      var first := InsertRow(schema, s, Key(table, e.id), e.fields).value;
      InsertIff(schema, first, table, rest);
      InsertMeans(schema, first, table, rest);
      var t := Perform(schema, s, Insert(table, entities)).value;
      assert Get(t, Key(table, e.id)) == Get(first, Key(table, e.id));
      assert entities == [e] + rest;
    }
  }

  /** An upsert succeeds exactly when every entity fits its table. */
  lemma {:induction false} UpsertIff(schema: Schema, s: Tables, table: string, entities: seq<Entity>)
    ensures Perform(schema, s, Upsert(table, entities)) != None <==> forall e <- entities :: IsRowOf(schema, table, e)
    decreases |entities|
  {
    if entities != [] {
      var e, rest := entities[0], entities[1..];
      assert entities == [e] + rest;
      var first := UpsertRow(schema, s, Key(table, e.id), e.fields);
      assert first != None <==> IsRowOf(schema, table, e);
      if first != None {
        UpsertIff(schema, first.value, table, rest);
      }
    }
  }

  ghost predicate Gives(e: Entity, id: string, column: string) {
    e.id == id && column in e.fields
  }

  /** Entity `j` is the last one that gives a value to this column of the row `id`. */
  ghost predicate GivesLast(entities: seq<Entity>, j: nat, id: string, column: string) {
    && j < |entities| && Gives(entities[j], id, column)
    && forall i :: j < i < |entities| ==> !Gives(entities[i], id, column)
  }

  function Column(row: Row, column: string): Option<string> {
    if column in row then Some(row[column]) else None
  }

  /** The row at `k`, or the default values where there is none. */
  function RowOrDefault(schema: Schema, s: Tables, k: Key): Row {
    if k in s then s[k] else if k.table in schema then schema[k.table] else map[]
  }

  /** An upsert adds exactly the rows that were not there. */
  lemma {:induction false} UpsertKeys(schema: Schema, s: Tables, table: string, entities: seq<Entity>)
    requires Perform(schema, s, Upsert(table, entities)) != None
    ensures Perform(schema, s, Upsert(table, entities)).value.Keys == s.Keys + KeysOf(table, entities)
    decreases |entities|
  {
    if entities != [] {
      var e, rest := entities[0], entities[1..];
      assert entities == [e] + rest;
      UpsertKeys(schema, UpsertRow(schema, s, Key(table, e.id), e.fields).value, table, rest);
    }
  }

  /** A column for which no value is given keeps the one it had, or has the default value in a new row. */
  lemma {:induction false} UpsertKeeps(schema: Schema, s: Tables, table: string, entities: seq<Entity>, k: Key, column: string)
    requires Perform(schema, s, Upsert(table, entities)) != None
    requires k.table == table ==> forall e <- entities :: !Gives(e, k.id, column)
    ensures var t := Perform(schema, s, Upsert(table, entities)).value;
            Column(RowOrDefault(schema, t, k), column) == Column(RowOrDefault(schema, s, k), column)
    decreases |entities|
  {
    if entities != [] {
      var e := entities[0];
      assert e in entities && (Key(table, e.id) == k ==> column !in e.fields);
      UpsertKeeps(schema, UpsertRow(schema, s, Key(table, e.id), e.fields).value, table, entities[1..], k, column);
    }
  }

  /** A column for which values are given has the last one. */
  lemma {:induction false} UpsertGives(schema: Schema, s: Tables, table: string, entities: seq<Entity>, j: nat, id: string, column: string)
    requires Perform(schema, s, Upsert(table, entities)) != None && GivesLast(entities, j, id, column)
    ensures var k, t := Key(table, id), Perform(schema, s, Upsert(table, entities)).value;
            k in t && Column(t[k], column) == Some(entities[j].fields[column])
    decreases |entities|
  {
    var e, rest, k := entities[0], entities[1..], Key(table, id);
    var first := UpsertRow(schema, s, Key(table, e.id), e.fields).value;
    if j == 0 {
      UpsertKeeps(schema, first, table, rest, k, column);
      UpsertKeys(schema, first, table, rest);
      assert k in first.Keys;
    } else {
      UpsertGives(schema, first, table, rest, j - 1, id, column);
    }
  }

  /** After a removal exactly the rows of the given ids are gone. */
  lemma {:induction false} RemoveMeans(schema: Schema, s: Tables, table: string, ids: seq<string>)
    ensures Perform(schema, s, Remove(table, ids)) != None
    ensures var t := Perform(schema, s, Remove(table, ids)).value;
            forall k :: Get(t, k) == if k.table == table && k.id in ids then None else Get(s, k)
    decreases |ids|
  {
    if ids != [] {
      RemoveMeans(schema, s - {Key(table, ids[0])}, table, ids[1..]);
    }
  }

  // ---------- A whole call of the data handler ----------

  function Execute(schema: Schema, s: Tables, ops: seq<Operation>): Option<Tables>
    decreases |ops|
  {
    if ops == [] then Some(s)
    else
      var first := Perform(schema, s, ops[0]);
      if first == None then None else Execute(schema, first.value, ops[1..])
  }

  function TrackScript(schema: Schema, s: Tables, ops: seq<Operation>): seq<Change>
    decreases |ops|
  {
    if ops == [] || Perform(schema, s, ops[0]) == None then []
    else Track(s, ops[0]) + TrackScript(schema, Perform(schema, s, ops[0]).value, ops[1..])
  }

  lemma ExecuteOne(schema: Schema, s: Tables, op: Operation)
    ensures Execute(schema, s, [op]) == Perform(schema, s, op)
  {
  }

  /** The operations of two calls, one after the other; nothing is left of the first if the second fails. */
  lemma {:induction false} ExecuteConcat(schema: Schema, s: Tables, a: seq<Operation>, b: seq<Operation>)
    ensures var mid := Execute(schema, s, a);
            Execute(schema, s, a + b) == if mid == None then None else Execute(schema, mid.value, b)
    decreases |a|
  {
    if a == [] {
      assert a + b == b;
    } else {
      assert (a + b)[1..] == a[1..] + b;
      var first := Perform(schema, s, a[0]);
      if first != None {
        ExecuteConcat(schema, first.value, a[1..], b);
      }
    }
  }

  lemma {:induction false} UndoScript(schema: Schema, s: Tables, ops: seq<Operation>)
    requires WellFormed(schema, s) && Execute(schema, s, ops) != None
    ensures var t := Execute(schema, s, ops).value;
            WellFormed(schema, t) && UndoAll(schema, t, TrackScript(schema, s, ops)) == Some(s)
    decreases |ops|
  {
    if ops != [] {
      var first := Perform(schema, s, ops[0]).value;
      UndoOperation(schema, s, ops[0]);
      UndoScript(schema, first, ops[1..]);
      UndoConcat(schema, Execute(schema, s, ops).value, Track(s, ops[0]), TrackScript(schema, first, ops[1..]));
    }
  }
}
