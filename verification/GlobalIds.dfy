/** Packed 64-bit record ids: the table's 16-bit id in the high bits and the row's
    local id in the low 48 bits, with the start-up validation of table ids. */
module GlobalIds {

  const UINT16: nat := 0x1_0000
  const LOCAL_SPAN: nat := 0x1_0000_0000_0000
  const UINT64: nat := 0x1_0000_0000_0000_0000

  /** An unsigned 64-bit hash value. */
  type Hash = h: nat | h < 0x1_0000_0000_0000_0000

  /** The 64-bit FNV-1a hash of a byte string, kept uninterpreted. */
  type HashFn = string -> Hash

  /** The id of a table: the top 16 bits of the hash of its name. */
  function TableId(fnv: HashFn, table: string): (id: nat)
    ensures id < UINT16
  {
    fnv(table) / LOCAL_SPAN
  }

  lemma {:induction false} TableIdIsTop(fnv: HashFn, table: string)
    ensures TableId(fnv, table) * LOCAL_SPAN <= fnv(table) < TableId(fnv, table) * LOCAL_SPAN + LOCAL_SPAN
  {
    assert fnv(table) == fnv(table) / LOCAL_SPAN * LOCAL_SPAN + fnv(table) % LOCAL_SPAN;
  }

  /** `(uint64(tableID) << 48) | (localID & 0xFFFFFFFFFFFF)`, on numbers. */
  function CompactGlobalId(tableId: nat, localId: nat): nat {
    tableId * LOCAL_SPAN + localId % LOCAL_SPAN
  }

  function ExtractLocalId(globalId: nat): nat {
    globalId % LOCAL_SPAN
  }

  /** `uint16(globalID >> 48)`. */
  function ExtractTableId(globalId: nat): nat {
    globalId / LOCAL_SPAN % UINT16
  }

  /** The packed id of row `localId` of a table. */
  function RowId(fnv: HashFn, table: string, localId: nat): nat {
    CompactGlobalId(TableId(fnv, table), localId)
  }

  /** On 64-bit words the shift-and-mask forms are the arithmetic forms used here. */
  lemma BitForms(tableId: bv64, localId: bv64, globalId: bv64)
    requires tableId < 0x1_0000
    ensures (tableId << 48) | (localId & 0xFFFF_FFFF_FFFF)
         == tableId * 0x1_0000_0000_0000 + localId % 0x1_0000_0000_0000
    ensures globalId & 0xFFFF_FFFF_FFFF == globalId % 0x1_0000_0000_0000
    ensures globalId >> 48 == globalId / 0x1_0000_0000_0000
  {
  }

  /** The first registered table whose id matches, in whatever order the registry lists them. */
  function GetTableName(fnv: HashFn, tables: seq<string>, id: nat): string {
    if tables == [] then "unknown"
    else if TableId(fnv, tables[0]) == id then tables[0]
    else GetTableName(fnv, tables[1..], id)
  }

  /** No two registered tables share an id. */
  ghost predicate DistinctTableIds(fnv: HashFn, tables: set<string>) {
    forall a, b :: a in tables && b in tables && TableId(fnv, a) == TableId(fnv, b) ==> a == b
  }

  /** Start-up check over the registry: succeeds exactly when no two tables share an id. */
  method ValidateTableIDs(fnv: HashFn, tables: seq<string>) returns (ok: bool)
    ensures ok <==> DistinctTableIds(fnv, set t | t in tables)
  {
    var seen: map<nat, string> := map[];
    for i := 0 to |tables|
      invariant forall k :: k in seen ==> seen[k] in tables[..i] && TableId(fnv, seen[k]) == k
      invariant forall j :: 0 <= j < i ==> TableId(fnv, tables[j]) in seen && seen[TableId(fnv, tables[j])] == tables[j]
    {
      var id := TableId(fnv, tables[i]);
      if id in seen && seen[id] != tables[i] {
        return false;
      }
      seen := seen[id := tables[i]];
    }
    return true;
  }

  /** Packing and unpacking are inverse below 2^48. */
  lemma {:induction false} UnpackPack(tableId: nat, localId: nat)
    requires tableId < UINT16 && localId < LOCAL_SPAN
    ensures CompactGlobalId(tableId, localId) < UINT64
    ensures ExtractLocalId(CompactGlobalId(tableId, localId)) == localId
    ensures ExtractTableId(CompactGlobalId(tableId, localId)) == tableId
  {
    var g := CompactGlobalId(tableId, localId);
    assert g / LOCAL_SPAN == tableId && g % LOCAL_SPAN == localId;
  }

  /** Among ids of one table, numeric order is the order of the local ids. */
  lemma PackOrder(tableId: nat, a: nat, b: nat)
    requires a < LOCAL_SPAN && b < LOCAL_SPAN
    ensures CompactGlobalId(tableId, a) < CompactGlobalId(tableId, b) <==> a < b
  {
  }

  /** Looking up a table id finds the table, provided ids are distinct. */
  lemma {:induction false} GetTableNameFinds(fnv: HashFn, tables: seq<string>, table: string)
    requires DistinctTableIds(fnv, set t | t in tables)
    requires table in tables
    ensures GetTableName(fnv, tables, TableId(fnv, table)) == table
  {
    assert tables[0] in tables;
    if TableId(fnv, tables[0]) != TableId(fnv, table) {
      assert forall t :: t in tables[1..] ==> t in tables;
      GetTableNameFinds(fnv, tables[1..], table);
    }
  }

  /** Distinct (registered table, local id) pairs have distinct packed ids. */
  ghost predicate PackingInjective(fnv: HashFn, tables: set<string>) {
    forall a, x: nat, b, y: nat ::
      a in tables && b in tables && x < LOCAL_SPAN && y < LOCAL_SPAN && RowId(fnv, a, x) == RowId(fnv, b, y) ==>
        a == b && x == y
  }

  /** The start-up check passes exactly when packed ids identify rows. */
  lemma {:induction false} DistinctIdsIffPackingInjective(fnv: HashFn, tables: set<string>)
    ensures DistinctTableIds(fnv, tables) <==> PackingInjective(fnv, tables)
  {
    forall a, x: nat, b, y: nat |
      DistinctTableIds(fnv, tables) &&
      a in tables && b in tables && x < LOCAL_SPAN && y < LOCAL_SPAN && RowId(fnv, a, x) == RowId(fnv, b, y)
      ensures a == b && x == y
    {
      UnpackPack(TableId(fnv, a), x);
      UnpackPack(TableId(fnv, b), y);
    }
    forall a, b | PackingInjective(fnv, tables) && a in tables && b in tables && TableId(fnv, a) == TableId(fnv, b)
      ensures a == b
    {
      assert RowId(fnv, a, 0) == RowId(fnv, b, 0);
    }
  }

  /** A packed id leads back to its table and local id, whichever order the registry lists tables in. */
  lemma {:induction false} RowIdRoundTrip(fnv: HashFn, tables: seq<string>, table: string, localId: nat)
    requires DistinctTableIds(fnv, set t | t in tables)
    requires table in tables && localId < LOCAL_SPAN
    ensures GetTableName(fnv, tables, ExtractTableId(RowId(fnv, table, localId))) == table
    ensures ExtractLocalId(RowId(fnv, table, localId)) == localId
  {
    UnpackPack(TableId(fnv, table), localId);
    GetTableNameFinds(fnv, tables, table);
  }
}
