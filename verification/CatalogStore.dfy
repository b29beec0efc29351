/** The catalog: tables and indexes under object ids, found through name maps, the index names in two levels. */
module CatalogStore {
  import opened Wrappers
  import opened Rids
  import opened Values
  import H = TableHeap
  import P = Plans
  import Scans

  datatype IndexInfo = IndexInfo(name: string, index: P.Index)

  type Names = map<string, map<string, nat>>

  /** An index name of a table, through the two levels. */
  function Find(names: Names, table: string, name: string): Option<nat> {
    if table in names && name in names[table] then Some(names[table][name]) else None
  }

  // Every name leads to an index of that name and table, every index is found under its name, and no table
  // keeps an empty map.
  ghost predicate NamesOK(names: Names, indexes: map<nat, IndexInfo>) {
    && (forall t, n {:trigger Find(names, t, n)} :: Find(names, t, n).Some? ==>
          var oid := Find(names, t, n).value; oid in indexes && indexes[oid].name == n && indexes[oid].index.table == t)
    && (forall oid {:trigger indexes[oid]} :: oid in indexes ==> Find(names, indexes[oid].index.table, indexes[oid].name) == Some(oid))
    && (forall t {:trigger names[t]} :: t in names ==> names[t] != map[])
  }

  function Added(names: Names, table: string, name: string, oid: nat): Names {
    names[table := (if table in names then names[table] else map[])[name := oid]]
  }

  function Dropped(names: Names, table: string, name: string): Names
    requires table in names
  {
    var inner := names[table] - {name};
    if inner == map[] then names - {table} else names[table := inner]
  }

  lemma AddKeeps(names: Names, indexes: map<nat, IndexInfo>, oid: nat, info: IndexInfo)
    requires NamesOK(names, indexes) && oid !in indexes && Find(names, info.index.table, info.name) == None
    ensures NamesOK(Added(names, info.index.table, info.name, oid), indexes[oid := info])
  {
    var names', indexes' := Added(names, info.index.table, info.name, oid), indexes[oid := info];
    forall t, n {:trigger Find(names', t, n)}
      ensures Find(names', t, n) == if t == info.index.table && n == info.name then Some(oid) else Find(names, t, n) {}
    forall i {:trigger indexes'[i]} | i in indexes' ensures Find(names', indexes'[i].index.table, indexes'[i].name) == Some(i) {
      if i != oid { assert indexes[i] == indexes'[i]; }
    }
    assert names'[info.index.table] != map[] by { assert info.name in names'[info.index.table]; }
  }

  lemma DropKeeps(names: Names, indexes: map<nat, IndexInfo>, table: string, name: string)
    requires NamesOK(names, indexes) && Find(names, table, name).Some?
    ensures NamesOK(Dropped(names, table, name), indexes - {Find(names, table, name).value})
    ensures forall t, n {:trigger Find(Dropped(names, table, name), t, n)} ::
      Find(Dropped(names, table, name), t, n) == if t == table && n == name then None else Find(names, t, n)
  {
    var oid := Find(names, table, name).value;
    var names', indexes' := Dropped(names, table, name), indexes - {oid};
    var inner := names[table] - {name};
    assert forall n :: n in inner <==> n in names[table] && n != name;
    forall t, n {:trigger Find(names', t, n)}
      ensures Find(names', t, n) == if t == table && n == name then None else Find(names, t, n) {}
    forall i {:trigger indexes'[i]} | i in indexes' ensures Find(names', indexes'[i].index.table, indexes'[i].name) == Some(i) {
      assert indexes'[i] == indexes[i];
    }
  }

  class Catalog {
    var tables: map<nat, Scans.StoredTable>
    var tableNames: map<string, nat>
    var indexes: map<nat, IndexInfo>
    var indexNames: Names
    var nextTable: nat
    var nextIndex: nat

    ghost predicate Valid()
      reads this, tables.Values
    {
      && (forall n {:trigger n in tableNames} :: n in tableNames ==> tableNames[n] in tables && tables[tableNames[n]].name == n)
      && (forall t {:trigger t in tables} :: t in tables ==>
            t < nextTable && tables[t].name in tableNames && tableNames[tables[t].name] == t)
      && NamesOK(indexNames, indexes)
      && (forall oid {:trigger indexes[oid]} :: oid in indexes ==> oid < nextIndex && indexes[oid].index.table in tableNames)
    }

    ghost function Heaps(): set<H.TableHeap>
      reads this, tables.Values
    {
      set t | t in tables :: tables[t].heap
    }

    /** The stored tables are sound, and no table has changed since an index was built on it. */
    ghost predicate Current()
      reads this, tables.Values, Heaps()
    {
      Valid() && forall t {:trigger Kept(t)} :: Kept(t)
    }

    // The table under an id is sound, and its indexes agree with it.
    ghost predicate Kept(t: nat)
      reads this, tables.Values, Heaps()
    {
      t in tables ==> tables[t].Valid() && forall oid {:trigger indexes[oid]} ::
        oid in indexes && indexes[oid].index.table == tables[t].name ==> P.IndexCurrent(Scans.AsTable(tables[t]), indexes[oid].index)
    }

    // Nothing happened to a table kept before, and its indexes are old ones or agree with it.
    twostate lemma StaysKept(t: nat)
      requires t in old(tables) && old(Kept(t)) && t in tables && tables[t] == old(tables)[t] && unchanged(tables[t], tables[t].heap)
      requires forall oid {:trigger indexes[oid]} :: oid in indexes && indexes[oid].index.table == tables[t].name ==>
        (oid in old(indexes) && indexes[oid] == old(indexes)[oid])
        || (tables[t].Valid() && P.IndexCurrent(Scans.AsTable(tables[t]), indexes[oid].index))
      ensures Kept(t)
    {
    }

    // A current catalog stays current: its tables are as before, and its indexes are old ones, but for one that
    // agrees with its table.
    twostate lemma StaysCurrent(added: Option<nat>)
      requires old(Current()) && Valid() && tables == old(tables)
      requires forall t {:trigger tables[t]} :: t in tables ==> unchanged(tables[t], tables[t].heap)
      requires forall oid {:trigger indexes[oid]} :: oid in indexes && Some(oid) != added ==> oid in old(indexes) && indexes[oid] == old(indexes)[oid]
      requires forall t {:trigger tables[t]} :: t in tables && added.Some? && added.value in indexes && indexes[added.value].index.table == tables[t].name ==>
        tables[t].Valid() && P.IndexCurrent(Scans.AsTable(tables[t]), indexes[added.value].index)
      ensures Current()
    {
      forall t ensures Kept(t) {
        assert old(Kept(t));
        if t in tables { StaysKept(t); }
      }
    }

    /** The catalog as the optimizer sees it, given the lists GetTableIndexes returns. */
    ghost function View(byTable: map<string, seq<nat>>): P.Catalog
      requires Current()
      reads this, tables.Values, Heaps()
    {
      P.Catalog(map t | t in tables :: (assert Kept(t); Scans.AsTable(tables[t])), map i | i in indexes :: indexes[i].index, byTable)
    }

    ghost predicate Lists(byTable: map<string, seq<nat>>)
      reads this
    {
      forall name {:trigger byTable[name]} :: name in byTable ==>
        forall oid :: oid in byTable[name] <==> oid in indexes && indexes[oid].index.table == name
    }

    /** What the optimizer asks of its catalog holds of a current one. */
    lemma ViewOK(byTable: map<string, seq<nat>>)
      requires Current() && Lists(byTable)
      ensures P.CatalogOK(View(byTable))
    {
      var cat := View(byTable);
      forall t {:trigger cat.tables[t]} | t in cat.tables ensures P.HeapOK(cat.tables[t]) {
        assert Kept(t);
        Scans.TableOK(tables[t]);
      }
      forall t, index ensures P.CurrentFor(cat, t, index) {
        assert Kept(t);
        if t in cat.tables && index in cat.indexes { assert cat.tables[t] == Scans.AsTable(tables[t]) && cat.indexes[index] == indexes[index].index; }
      }
      forall name ensures P.ListOK(cat, name) {
        if name in byTable { assert forall i :: 0 <= i < |byTable[name]| ==> byTable[name][i] in byTable[name]; }
      }
    }

    constructor ()
      ensures Current() && tables == map[] && indexes == map[]
    {
      tables, tableNames, indexes, indexNames := map[], map[], map[], map[];
      nextTable, nextIndex := 1, 1;
    }

    /** Refused exactly when the name is taken; otherwise the table is found under its name and a fresh id. */
    method CreateTable(name: string, types: seq<Type>) returns (oid: Option<nat>)
      requires Valid()
      modifies this`tables, this`tableNames, this`nextTable
      ensures Valid() && (old(Current()) ==> Current()) && (oid == None <==> name in old(tableNames))
      ensures oid == None ==> tables == old(tables) && tableNames == old(tableNames)
      ensures oid.Some? ==> oid.value !in old(tables) && tableNames == old(tableNames)[name := oid.value]
      ensures oid.Some? ==> tables.Keys == old(tables).Keys + {oid.value} && forall t :: t in old(tables) ==> tables[t] == old(tables)[t]
      ensures oid.Some? ==> tables[oid.value].types == types && tables[oid.value].heap.Valid() && tables[oid.value].heap.Contents() == []
    {
      if name in tableNames { return None; }
      var table := NewTable(name, types);
      if old(Current()) { StaysCurrent(None); }
      Enter(table);
      oid := Some(nextTable - 1);
    }

    static method NewTable(name: string, types: seq<Type>) returns (table: Scans.StoredTable)
      ensures fresh(table) && fresh(table.heap) && table.name == name && table.types == types
      ensures table.Valid() && table.heap.Contents() == []
    {
      var heap := new H.TableHeap();
      table := new Scans.StoredTable(name, types, heap);
    }

    // Enters a new table under the next id and its name.
    method Enter(table: Scans.StoredTable)
      requires Valid() && table.name !in tableNames
      modifies this`tables, this`tableNames, this`nextTable
      ensures Valid() && nextTable == old(nextTable) + 1 && old(nextTable) !in old(tables)
      ensures tables == old(tables)[old(nextTable) := table] && tableNames == old(tableNames)[table.name := old(nextTable)]
      ensures old(Current()) && table.Valid() ==> Current()
    {
      tables := tables[nextTable := table];
      tableNames := tableNames[table.name := nextTable];
      nextTable := nextTable + 1;
      if old(Current()) && table.Valid() {
        forall t ensures Kept(t) {
          assert old(Kept(t));
          if t in old(tables) { StaysKept(t); }
        }
      }
    }

    function GetIndex(name: string, table: string): Option<nat>
      reads this
    {
      Find(indexNames, table, name)
    }

    /** Refused exactly when the table is missing, the name is empty or taken, or the columns are none or not all
        columns of the table. An index on one integer column is filled from the table. */
    method CreateIndex(name: string, tableName: string, attrs: seq<nat>) returns (oid: Option<nat>)
      requires Valid() && (tableName in tableNames ==> tables[tableNames[tableName]].Valid())
      modifies this`indexes, this`indexNames, this`nextIndex
      ensures Valid() && (old(Current()) ==> Current())
      ensures oid == None <==>
        tableName !in tableNames || name == "" || attrs == [] || old(GetIndex(name, tableName)).Some?
        || !AllColumns(attrs, tables[tableNames[tableName]].types)
      ensures oid == None ==> indexes == old(indexes) && indexNames == old(indexNames)
      ensures oid.Some? ==>
        var table := tables[tableNames[tableName]];
        && oid.value !in old(indexes) && oid.value in indexes && indexes == old(indexes)[oid.value := indexes[oid.value]]
        && indexNames == Added(old(indexNames), tableName, name, oid.value)
        && IsBuilt(table, attrs, indexes[oid.value], name)
    {
      if tableName !in tableNames || name == "" || attrs == [] { return None; }
      var table := tables[tableNames[tableName]];
      if GetIndex(name, tableName).Some? { return None; }
      var known := CheckColumns(attrs, table.types);
      if !known {
        if old(Current()) { StaysCurrent(None); }
        return None;
      }
      var info := Build(name, table, attrs);
      oid := Some(nextIndex);
      Register(info);
      if old(Current()) { StaysCurrent(oid); }
    }

    // Enters an index under a fresh id and its two names.
    method Register(info: IndexInfo)
      requires Valid() && Find(indexNames, info.index.table, info.name) == None && info.index.table in tableNames
      modifies this`indexes, this`indexNames, this`nextIndex
      ensures Valid() && old(nextIndex) !in old(indexes)
      ensures indexes == old(indexes)[old(nextIndex) := info]
      ensures indexNames == Added(old(indexNames), info.index.table, info.name, old(nextIndex))
    {
      AddKeeps(indexNames, indexes, nextIndex, info);
      indexes := indexes[nextIndex := info];
      indexNames := Added(indexNames, info.index.table, info.name, nextIndex);
      nextIndex := nextIndex + 1;
    }

    static method CheckColumns(attrs: seq<nat>, types: seq<Type>) returns (ok: bool)
      ensures ok == AllColumns(attrs, types)
    {
      for i := 0 to |attrs|
        invariant forall k :: 0 <= k < i ==> attrs[k] < |types|
      {
        if attrs[i] >= |types| { return false; }
      }
      return true;
    }

    // The new index, filled if it supports point lookups.
    static method Build(name: string, table: Scans.StoredTable, attrs: seq<nat>) returns (info: IndexInfo)
      requires table.Valid() && attrs != [] && AllColumns(attrs, table.types)
      ensures IsBuilt(table, attrs, info, name)
    {
      var entries: map<Int32, seq<RID>> := map[];
      var point := |attrs| == 1 && table.types[attrs[0]] == Integer;
      if point {
        entries := Scans.BuildIndex(table, attrs[0]);
        ghost var rows := table.Rows();
        assert rows[..|rows|] == rows;
      }
      info := IndexInfo(name, P.Index(table.name, attrs, point, entries));
    }

    /** Removes exactly the index of that name and table, if there is one. */
    method DropIndex(name: string, table: string) returns (ok: bool)
      requires Valid()
      modifies this`indexes, this`indexNames
      ensures Valid() && (old(Current()) ==> Current()) && ok == old(GetIndex(name, table)).Some?
      ensures indexes == if ok then old(indexes) - {old(GetIndex(name, table)).value} else old(indexes)
      ensures forall t, n {:trigger Find(indexNames, t, n)} ::
        Find(indexNames, t, n) == if ok && t == table && n == name then None else Find(old(indexNames), t, n)
    {
      if table !in indexNames { return false; }
      if name !in indexNames[table] { return false; }
      Forget(name, table);
      if old(Current()) { StaysCurrent(None); }
      ok := true;
    }

    // Takes an index out of the two levels of names.
    method Forget(name: string, table: string)
      requires Valid() && GetIndex(name, table).Some?
      modifies this`indexes, this`indexNames
      ensures Valid() && indexes == old(indexes) - {old(GetIndex(name, table)).value}
      ensures forall t, n {:trigger Find(indexNames, t, n)} ::
        Find(indexNames, t, n) == if t == table && n == name then None else Find(old(indexNames), t, n)
    {
      DropKeeps(indexNames, indexes, table, name);
      indexes := indexes - {indexNames[table][name]};
      var inner := indexNames[table] - {name};
      indexNames := if inner == map[] then indexNames - {table} else indexNames[table := inner];
    }

    /** The ids of a table's indexes, each once, in any order. */
    method GetTableIndexes(table: string) returns (oids: seq<nat>)
      requires Valid()
      ensures forall oid :: oid in oids <==> oid in indexes && indexes[oid].index.table == table
      ensures forall i, j :: 0 <= i < j < |oids| ==> oids[i] != oids[j]
    {
      oids := [];
      forall n | table in indexNames && n in indexNames[table] ensures indexNames[table][n] in indexes {
        assert Find(indexNames, table, n) == Some(indexNames[table][n]);
      }
      if table !in indexNames {
        forall oid | oid in indexes ensures indexes[oid].index.table != table {
          assert Find(indexNames, indexes[oid].index.table, indexes[oid].name) == Some(oid);
        }
        return;
      }
      var inner := indexNames[table];
      var rest := inner.Keys;
      while rest != {}
        invariant rest <= inner.Keys
        invariant forall n :: n in inner ==> inner[n] in indexes
        invariant forall oid :: oid in oids <==> exists n :: n in inner && n !in rest && inner[n] == oid
        invariant forall i, j :: 0 <= i < j < |oids| ==> oids[i] != oids[j]
      {
        var name :| name in rest;
        forall n | n in inner && inner[n] == inner[name] ensures n == name {
          assert Find(indexNames, table, n) == Some(inner[n]) && Find(indexNames, table, name) == Some(inner[name]);
        }
        assert inner[name] !in oids;
        rest := rest - {name};
        oids := oids + [inner[name]];
      }
      forall oid ensures oid in oids <==> oid in indexes && indexes[oid].index.table == table {
        if oid in indexes && indexes[oid].index.table == table {
          assert Find(indexNames, table, indexes[oid].name) == Some(oid);
          assert inner[indexes[oid].name] == oid;
        }
        assert forall n :: n in inner ==> Find(indexNames, table, n) == Some(inner[n]);
      }
    }
  }

  predicate AllColumns(attrs: seq<nat>, types: seq<Type>) {
    forall i :: 0 <= i < |attrs| ==> attrs[i] < |types|
  }

  /** A new index agrees with the table it was built from. */
  ghost predicate IsBuilt(table: Scans.StoredTable, attrs: seq<nat>, info: IndexInfo, name: string)
    requires table.Valid()
    reads table, table.heap
  {
    && info.name == name && info.index.table == table.name && info.index.attrs == attrs
    && (info.index.point <==> |attrs| == 1 && attrs[0] < |table.types| && table.types[attrs[0]] == Integer)
    && P.IndexCurrent(Scans.AsTable(table), info.index)
  }
}
