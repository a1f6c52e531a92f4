// The in-memory store of extensions: namespaces and byte quotas (crates/key-extension-host/src/services.rs).
module ExtensionStorage {
  import opened Unicode

  datatype DataValue =
    | Null
    | Boolean(flag: bool)
    | Integer(whole: int)
    | Number(number: real)
    | Text(text: string)
    | List(values: seq<DataValue>)
    | Record(fields: seq<Field>)
  datatype Field = Field(name: string, value: DataValue)

  datatype Area = Settings | Document | EphemeralCache
  datatype Namespace = Namespace(extension: string, area: Area)
  datatype Cell = Cell(space: Namespace, key: string)
  datatype Reply = Stored | Found(value: DataValue) | InvalidRequest | QuotaExceeded

  type Values = map<Cell, DataValue>

  // ---------- sizes ----------

  function ValueSize(value: DataValue): nat
    decreases value, 1
  {
    match value
    case Null => 1
    case Boolean(_) => 1
    case Integer(_) => 8
    case Number(_) => 8
    case Text(text) => Bytes(text)
    case List(values) => ListSize(values)
    case Record(fields) => RecordSize(fields)
  }

  function ListSize(values: seq<DataValue>): nat
    decreases values, 0
  {
    if values == [] then 0 else ValueSize(values[0]) + ListSize(values[1..])
  }

  function FieldSize(field: Field): nat
    decreases field, 2
  {
    Bytes(field.name) + ValueSize(field.value)
  }

  function RecordSize(fields: seq<Field>): nat
    decreases fields, 0
  {
    if fields == [] then 0 else FieldSize(fields[0]) + RecordSize(fields[1..])
  }

  function EntrySize(cell: Cell, value: DataValue): nat { Bytes(cell.key) + ValueSize(value) }

  /** The parts of a value that take space: names and leaves, from left to right. */
  datatype Part = Name(name: string) | Leaf(value: DataValue)

  function Parts(value: DataValue): seq<Part>
    decreases value, 1
  {
    match value
    case List(values) => ListParts(values)
    case Record(fields) => RecordParts(fields)
    case _ => [Leaf(value)]
  }

  function ListParts(values: seq<DataValue>): seq<Part>
    decreases values, 0
  {
    if values == [] then [] else Parts(values[0]) + ListParts(values[1..])
  }

  function FieldParts(field: Field): seq<Part>
    decreases field, 2
  {
    [Name(field.name)] + Parts(field.value)
  }

  function RecordParts(fields: seq<Field>): seq<Part>
    decreases fields, 0
  {
    if fields == [] then [] else FieldParts(fields[0]) + RecordParts(fields[1..])
  }

  /** Text counts its UTF-8 bytes, numbers eight, and the rest one. */
  function PartSize(part: Part): nat {
    match part
    case Name(name) => Bytes(name)
    case Leaf(value) =>
      match value
      case Text(text) => Bytes(text)
      case Integer(_) => 8
      case Number(_) => 8
      case _ => 1
  }

  function PartsSize(parts: seq<Part>): nat {
    if parts == [] then 0 else PartSize(parts[0]) + PartsSize(parts[1..])
  }

  lemma {:induction false} PartsConcat(a: seq<Part>, b: seq<Part>)
    ensures PartsSize(a + b) == PartsSize(a) + PartsSize(b)
  {
    if a == [] {
      assert a + b == b;
    } else {
      PartsConcat(a[1..], b);
      assert (a + b)[1..] == a[1..] + b;
    }
  }

  /** A value takes what its names and leaves take; lists and records cost nothing themselves. */
  lemma {:induction false} SizeOfParts(value: DataValue)
    ensures ValueSize(value) == PartsSize(Parts(value))
    decreases value, 1
  {
    match value
    case List(values) => SizeOfList(values);
    case Record(fields) => SizeOfRecord(fields);
    case _ => assert [Leaf(value)][1..] == [];
  }

  lemma {:induction false} SizeOfList(values: seq<DataValue>)
    ensures ListSize(values) == PartsSize(ListParts(values))
    decreases values, 0
  {
    if values != [] {
      SizeOfParts(values[0]);
      SizeOfList(values[1..]);
      PartsConcat(Parts(values[0]), ListParts(values[1..]));
    }
  }

  lemma {:induction false} SizeOfRecord(fields: seq<Field>)
    ensures RecordSize(fields) == PartsSize(RecordParts(fields))
    decreases fields, 0
  {
    if fields != [] {
      var Field(name, value) := fields[0];
      SizeOfParts(value);
      SizeOfRecord(fields[1..]);
      PartsConcat([Name(name)], Parts(value));
      assert [Name(name)][1..] == [];
      PartsConcat(FieldParts(fields[0]), RecordParts(fields[1..]));
    }
  }

  predicate ContainsTwoDots(key: string) {
    exists i :: 0 < i < |key| && key[i - 1] == '.' && key[i] == '.'
  }

  predicate ValidKey(key: string) {
    && 0 < |key| <= 256 && (forall i :: 0 <= i < |key| ==> key[i] as int < 0x80)
    && key[0] != '.' && !ContainsTwoDots(key) && '/' !in key && '\\' !in key
  }

  // ---------- totals ----------

  ghost function Sum(values: Values, cells: set<Cell>): nat
    requires cells <= values.Keys
  {
    if cells == {} then 0
    else
      var cell :| cell in cells;
      EntrySize(cell, values[cell]) + Sum(values, cells - {cell})
  }

  function CellsOf(values: Values, space: Namespace): set<Cell> {
    set cell | cell in values && cell.space == space
  }

  /** Bytes that a namespace uses, counted afresh. */
  ghost function Total(values: Values, space: Namespace): nat { Sum(values, CellsOf(values, space)) }

  lemma {:induction false} SumWithout(values: Values, cells: set<Cell>, cell: Cell)
    requires cells <= values.Keys && cell in cells
    ensures Sum(values, cells) == EntrySize(cell, values[cell]) + Sum(values, cells - {cell})
  {
    var first :| first in cells && Sum(values, cells) == EntrySize(first, values[first]) + Sum(values, cells - {first});
    if first != cell {
      SumWithout(values, cells - {first}, cell);
      SumWithout(values, cells - {cell}, first);
      assert cells - {first} - {cell} == cells - {cell} - {first};
    }
  }

  lemma NothingSums(values: Values)
    ensures Sum(values, {}) == 0
  {
  }

  lemma {:induction false} SumAgrees(a: Values, b: Values, cells: set<Cell>)
    requires cells <= a.Keys && cells <= b.Keys && forall cell :: cell in cells ==> a[cell] == b[cell]
    ensures Sum(a, cells) == Sum(b, cells)
  {
    if cells != {} {
      var cell :| cell in cells;
      SumWithout(a, cells, cell);
      SumWithout(b, cells, cell);
      SumAgrees(a, b, cells - {cell});
    }
  }

  function Previous(values: Values, cell: Cell): nat {
    if cell in values then EntrySize(cell, values[cell]) else 0
  }

  /** The incremental figure is the total counted afresh after the write. */
  lemma IncrementIsExact(values: Values, cell: Cell, value: DataValue)
    ensures Previous(values, cell) <= Total(values, cell.space)
    ensures Total(values[cell := value], cell.space)
      == Total(values, cell.space) - Previous(values, cell) + EntrySize(cell, value)
  {
    hide EntrySize;
    var after := values[cell := value];
    var cells := CellsOf(values, cell.space);
    SumWithout(after, CellsOf(after, cell.space), cell);
    assert CellsOf(after, cell.space) - {cell} == cells - {cell};
    if cell in values {
      SumWithout(values, cells, cell);
    } else {
      assert cells - {cell} == cells;
    }
    SumAgrees(values, after, cells - {cell});
  }

  lemma OtherTotals(a: Values, b: Values, space: Namespace)
    requires forall cell: Cell :: cell.space == space ==>
      (cell in a <==> cell in b) && (cell in a ==> a[cell] == b[cell])
    ensures Total(a, space) == Total(b, space)
  {
    assert CellsOf(a, space) == CellsOf(b, space);
    SumAgrees(a, b, CellsOf(a, space));
  }

  lemma {:induction false} SumOfPart(values: Values, part: set<Cell>, cells: set<Cell>)
    requires part <= cells <= values.Keys
    ensures Sum(values, part) <= Sum(values, cells)
  {
    if part != {} {
      var cell :| cell in part;
      SumWithout(values, part, cell);
      SumWithout(values, cells, cell);
      SumOfPart(values, part - {cell}, cells - {cell});
    }
  }

  lemma SmallerTotals(a: Values, b: Values, space: Namespace)
    requires forall cell :: cell in b ==> cell in a && a[cell] == b[cell]
    ensures Total(b, space) <= Total(a, space)
  {
    SumAgrees(a, b, CellsOf(b, space));
    SumOfPart(a, CellsOf(b, space), CellsOf(a, space));
  }

  // ---------- the store ----------

  datatype Operation =
    | Get(cell: Cell)
    | Put(cell: Cell, value: DataValue, quota: nat)
    | Delete(cell: Cell)
    | ClearArea(space: Namespace)
    | ClearAll(area: Area)

  ghost function Apply(values: Values, op: Operation): (Values, Reply) {
    match op
    case Get(cell) =>
      if !ValidKey(cell.key) then (values, InvalidRequest)
      else (values, Found(if cell in values then values[cell] else Null))
    case Put(cell, value, quota) =>
      if !ValidKey(cell.key) then (values, InvalidRequest)
      else if Total(values[cell := value], cell.space) > quota then (values, QuotaExceeded)
      else (values[cell := value], Stored)
    case Delete(cell) => if !ValidKey(cell.key) then (values, InvalidRequest) else (values - {cell}, Stored)
    case ClearArea(space) => (values - CellsOf(values, space), Stored)
    case ClearAll(area) => (values - (set cell | cell in values && cell.space.area == area), Stored)
  }

  class MemoryExtensionStorage {
    var values: Values

    constructor ()
      ensures values == map[]
    {
      values := map[];
    }

    method Get(cell: Cell) returns (reply: Reply)
      ensures (values, reply) == Apply(values, Operation.Get(cell))
    {
      if !ValidKey(cell.key) {
        return InvalidRequest;
      }
      reply := Found(if cell in values then values[cell] else Null);
    }

    /** Adds up the namespace entry by entry, then the write is accepted or changes nothing. */
    method Put(cell: Cell, value: DataValue, quota: nat) returns (reply: Reply)
      modifies this
      ensures (values, reply) == Apply(old(values), Operation.Put(cell, value, quota))
    {
      hide EntrySize, ValueSize, ValidKey;
      if !ValidKey(cell.key) {
        return InvalidRequest;
      }
      var current := CurrentBytes(cell.space);
      IncrementIsExact(values, cell, value);
      var previous := Previous(values, cell);
      var next := current - previous + EntrySize(cell, value);
      if next > quota {
        return QuotaExceeded;
      }
      values := values[cell := value];
      reply := Stored;
    }

    method CurrentBytes(space: Namespace) returns (bytes: nat)
      ensures bytes == Total(values, space)
    {
      hide EntrySize, Sum;
      bytes := 0;
      var rest := values.Keys;
      assert rest * CellsOf(values, space) == CellsOf(values, space);
      while rest != {}
        invariant rest <= values.Keys
        invariant bytes + Sum(values, rest * CellsOf(values, space)) == Total(values, space)
        decreases |rest|
      {
        var cell :| cell in rest;
        ghost var part := rest * CellsOf(values, space);
        assert (rest - {cell}) * CellsOf(values, space) == part - {cell};
        if cell.space == space {
          SumWithout(values, part, cell);
          bytes := bytes + EntrySize(cell, values[cell]);
        } else {
          assert part - {cell} == part;
        }
        rest := rest - {cell};
      }
      NothingSums(values);
      assert {} * CellsOf(values, space) == {};
    }

    method Delete(cell: Cell) returns (reply: Reply)
      modifies this
      ensures (values, reply) == Apply(old(values), Operation.Delete(cell))
    {
      if !ValidKey(cell.key) {
        return InvalidRequest;
      }
      values := values - {cell};
      reply := Stored;
    }

    method ClearArea(space: Namespace)
      modifies this
      ensures values == Apply(old(values), Operation.ClearArea(space)).0
    {
      values := map cell | cell in values && cell.space != space :: values[cell];
    }

    method ClearAll(area: Area)
      modifies this
      ensures values == Apply(old(values), Operation.ClearAll(area)).0
    {
      values := map cell | cell in values && cell.space.area != area :: values[cell];
    }
  }

  // ---------- runs ----------

  ghost function Run(values: Values, ops: seq<Operation>): Values
    decreases |ops|
  {
    if ops == [] then values else Run(Apply(values, ops[0]).0, ops[1..])
  }

  predicate Touches(op: Operation, space: Namespace) {
    match op
    case Get(_) => false
    case Put(cell, _, _) => cell.space == space
    case Delete(cell) => cell.space == space
    case ClearArea(cleared) => cleared == space
    case ClearAll(area) => area == space.area
  }

  predicate SameSpace(a: Values, b: Values, space: Namespace) {
    CellsOf(a, space) == CellsOf(b, space) && forall cell :: cell in CellsOf(a, space) ==> a[cell] == b[cell]
  }

  /** An operation elsewhere leaves a namespace as it was; only clearing its whole area reaches in. */
  lemma {:induction false} SpacesAreSeparate(values: Values, ops: seq<Operation>, space: Namespace)
    requires forall i :: 0 <= i < |ops| ==> !Touches(ops[i], space)
    ensures SameSpace(values, Run(values, ops), space)
    decreases |ops|
  {
    hide ValidKey, Total;
    if ops != [] {
      var next := Apply(values, ops[0]).0;
      assert SameSpace(values, next, space);
      SpacesAreSeparate(next, ops[1..], space);
    }
  }

  lemma ApplyWithinQuota(values: Values, op: Operation, space: Namespace, quota: nat)
    requires Total(values, space) <= quota && (op.Put? && op.cell.space == space ==> op.quota <= quota)
    ensures Total(Apply(values, op).0, space) <= quota
  {
    hide ValidKey, Total;
    var next := Apply(values, op).0;
    if op.Put? {
      if op.cell.space != space {
        OtherTotals(values, next, space);
      }
    } else {
      SmallerTotals(values, next, space);
    }
  }

  /** As long as writes to a namespace are checked against a quota, it holds after every run. */
  lemma {:induction false} QuotaHolds(values: Values, ops: seq<Operation>, space: Namespace, quota: nat)
    requires Total(values, space) <= quota
    requires forall i :: 0 <= i < |ops| && ops[i].Put? && ops[i].cell.space == space ==> ops[i].quota <= quota
    ensures Total(Run(values, ops), space) <= quota
    decreases |ops|
  {
    hide Apply, Total;
    if ops != [] {
      ApplyWithinQuota(values, ops[0], space, quota);
      QuotaHolds(Apply(values, ops[0]).0, ops[1..], space, quota);
    }
  }

  predicate Changes(op: Operation, cell: Cell) {
    match op
    case Get(_) => false
    case Put(other, _, _) => other == cell
    case Delete(other) => other == cell
    case ClearArea(space) => cell.space == space
    case ClearAll(area) => cell.space.area == area
  }

  /** What was accepted is read back until something changes that cell. */
  lemma {:induction false} StoredIsReadBack(values: Values, put: Operation, ops: seq<Operation>)
    requires put.Put? && Apply(values, put).1 == Stored
    requires forall i :: 0 <= i < |ops| ==> !Changes(ops[i], put.cell)
    ensures Apply(Run(Apply(values, put).0, ops), Get(put.cell)).1 == Found(put.value)
  {
    hide ValidKey, Total;
    CellStays(Apply(values, put).0, ops, put.cell);
  }

  lemma {:induction false} CellStays(values: Values, ops: seq<Operation>, cell: Cell)
    requires forall i :: 0 <= i < |ops| ==> !Changes(ops[i], cell)
    ensures var after := Run(values, ops);
      (cell in after <==> cell in values) && (cell in values ==> after[cell] == values[cell])
    decreases |ops|
  {
    hide ValidKey, Total;
    if ops != [] {
      CellStays(Apply(values, ops[0]).0, ops[1..], cell);
    }
  }
}
