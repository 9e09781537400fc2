/** The table of types: four basic ones, then one entry for each typedef. */
module TypeTable {
  import opened Wrappers
  import opened Ast
  import opened StmtCompiler

  /** A type: its number, size, name, and for a struct the numbers and names of its fields. */
  datatype TypeInfo = TypeInfo(id: int, size: nat, name: string, isStruct: bool, fields: seq<(int, string)>)

  const BASIC: seq<TypeInfo> := [
    TypeInfo(10, 1, "bool", false, []), TypeInfo(20, 4, "int", false, []),
    TypeInfo(30, 4, "float32", false, []), TypeInfo(40, 16, "string", false, [])]

  /** The entries of a table in the order they were inserted: numbered 10, 20, 30, ..., and a
      struct only has fields of earlier entries. */
  ghost predicate Ordered(entries: seq<TypeInfo>) {
    && (forall i :: 0 <= i < |entries| ==> entries[i].id == Number(i))
    && (forall i, k :: 0 <= i < |entries| && 0 <= k < |entries[i].fields| ==>
          && 0 <= Position(entries[i].fields[k].0) < i
          && entries[i].fields[k].0 == Number(Position(entries[i].fields[k].0)))
  }

  /** The number of an entry by its position, and the position by the number. */
  function Number(i: int): int {
    10 * (i + 1)
  }

  function Position(id: int): int {
    id / 10 - 1
  }

  /** The bytes of a type, counted down to its basic parts. */
  ghost function LeafBytes(entries: seq<TypeInfo>, i: nat): nat
    requires Ordered(entries) && i < |entries|
    decreases i, 1, 0
  {
    if entries[i].isStruct then FieldBytes(entries, i, |entries[i].fields|) else entries[i].size
  }

  ghost function FieldBytes(entries: seq<TypeInfo>, i: nat, n: nat): nat
    requires Ordered(entries) && i < |entries| && n <= |entries[i].fields|
    decreases i, 0, n
  {
    if n == 0 then 0 else
      FieldBytes(entries, i, n - 1) + LeafBytes(entries, Position(entries[i].fields[n - 1].0))
  }

  /** Every entry is as large as its parts. */
  ghost predicate Sized(entries: seq<TypeInfo>)
    requires Ordered(entries)
  {
    forall i :: 0 <= i < |entries| ==> entries[i].size == LeafBytes(entries, i)
  }

  /** A new entry does not change the size of the earlier ones. */
  lemma {:induction false} LeafBytesKept(entries: seq<TypeInfo>, more: seq<TypeInfo>, i: nat)
    requires Ordered(entries) && Ordered(entries + more) && i < |entries|
    ensures LeafBytes(entries + more, i) == LeafBytes(entries, i)
    decreases i, 1, 0
  {
    if entries[i].isStruct {
      FieldBytesKept(entries, more, i, |entries[i].fields|);
    }
  }

  lemma {:induction false} FieldBytesKept(entries: seq<TypeInfo>, more: seq<TypeInfo>, i: nat, n: nat)
    requires Ordered(entries) && Ordered(entries + more) && i < |entries| && n <= |entries[i].fields|
    ensures FieldBytes(entries + more, i, n) == FieldBytes(entries, i, n)
    decreases i, 0, n
  {
    assert (entries + more)[i] == entries[i];
    if n > 0 {
      FieldBytesKept(entries, more, i, n - 1);
      LeafBytesKept(entries, more, Position(entries[i].fields[n - 1].0));
    }
  }

  /** Fields of types that are in the table. */
  ghost predicate Earlier(entries: seq<TypeInfo>, fields: seq<(int, string)>) {
    forall k :: 0 <= k < |fields| ==>
      0 <= Position(fields[k].0) < |entries| && fields[k].0 == Number(Position(fields[k].0))
  }

  /** Fields with the given names, each of an entry with the given type name. */
  ghost predicate Matching(entries: seq<TypeInfo>, fields: seq<(int, string)>, named: seq<Field>)
    requires Earlier(entries, fields)
  {
    && |fields| == |named|
    && forall k :: 0 <= k < |fields| ==>
         fields[k].1 == named[k].0 && entries[Position(fields[k].0)].name == named[k].1
  }

  /** The sum of the sizes recorded for the fields. */
  ghost function RecordedSum(entries: seq<TypeInfo>, fields: seq<(int, string)>): nat
    requires Earlier(entries, fields)
  {
    if fields == [] then 0 else
      RecordedSum(entries, fields[..|fields| - 1]) + entries[Position(fields[|fields| - 1].0)].size
  }

  lemma NoFields(entries: seq<TypeInfo>)
    ensures Earlier(entries, []) && RecordedSum(entries, []) == 0 && Matching(entries, [], [])
  {
  }

  lemma FieldAdded(entries: seq<TypeInfo>, fields: seq<(int, string)>, named: seq<Field>, t: TypeInfo, field: Field)
    requires Ordered(entries) && Earlier(entries, fields) && Matching(entries, fields, named)
    requires t in entries && t.name == field.1
    ensures var more := fields + [(t.id, field.0)];
            && Earlier(entries, more) && Matching(entries, more, named + [field])
            && RecordedSum(entries, more) == RecordedSum(entries, fields) + t.size
  {
    var i :| 0 <= i < |entries| && entries[i] == t;
    assert t.id == Number(i) && Position(t.id) == i;
    var more := fields + [(t.id, field.0)];
    assert more[..|more| - 1] == fields;
  }

  /** A struct built from the sizes recorded for its fields keeps the table sized. */
  lemma StructSized(entries: seq<TypeInfo>, t: TypeInfo)
    requires Ordered(entries) && Sized(entries) && Ordered(entries + [t])
    requires t.isStruct ==> Earlier(entries, t.fields) && t.size == RecordedSum(entries, t.fields)
    ensures Sized(entries + [t])
  {
    var all := entries + [t];
    forall i | 0 <= i < |all| ensures all[i].size == LeafBytes(all, i) {
      if i < |entries| {
        LeafBytesKept(entries, [t], i);
      } else if t.isStruct {
        SumIsBytes(entries, t, |t.fields|);
        assert t.fields[..|t.fields|] == t.fields;
      }
    }
  }

  lemma {:induction false} SumIsBytes(entries: seq<TypeInfo>, t: TypeInfo, n: nat)
    requires Ordered(entries) && Sized(entries) && Ordered(entries + [t]) && n <= |t.fields|
    ensures Earlier(entries, t.fields[..n])
    ensures FieldBytes(entries + [t], |entries|, n) == RecordedSum(entries, t.fields[..n])
    decreases n
  {
    var all := entries + [t];
    assert all[|entries|] == t;
    forall k | 0 <= k < |t.fields|
      ensures 0 <= Position(t.fields[k].0) < |entries| && t.fields[k].0 == Number(Position(t.fields[k].0))
    {
      assert all[|entries|].fields[k] == t.fields[k];
    }
    if n > 0 {
      SumIsBytes(entries, t, n - 1);
      assert t.fields[..n][..n - 1] == t.fields[..n - 1];
      LeafBytesKept(entries, [t], Position(t.fields[n - 1].0));
    }
  }

  lemma AppendOrdered(entries: seq<TypeInfo>, t: TypeInfo)
    requires Ordered(entries) && t.id == Number(|entries|) && Earlier(entries, t.fields)
    ensures Ordered(entries + [t])
  {
    var all := entries + [t];
    forall i, k | 0 <= i < |all| && 0 <= k < |all[i].fields|
      ensures 0 <= Position(all[i].fields[k].0) < i && all[i].fields[k].0 == Number(Position(all[i].fields[k].0))
    {
      if i < |entries| {
        assert all[i] == entries[i];
      }
    }
  }

  // ----- the table as a function of the typedefs -----

  ghost predicate Below(order: seq<nat>, n: nat) {
    forall k :: 0 <= k < |order| ==> order[k] < n
  }

  /** `order` names every position below `n` and no other. */
  ghost predicate Covers(order: seq<nat>, n: nat) {
    Below(order, n) && forall i: nat :: i < n ==> i in order
  }

  function InOrder(n: nat): (order: seq<nat>)
    ensures Covers(order, n)
  {
    if n == 0 then [] else InOrder(n - 1) + [n - 1]
  }

  /** The order in which the hash table is walked when it holds so many types. It is a
      parameter: the language leaves it open. */
  type Walk = w: nat -> seq<nat> | forall n :: Covers(w(n), n) witness InOrder

  /** The first position in the order with an entry of that name. */
  function FirstNamed(entries: seq<TypeInfo>, order: seq<nat>, name: string): (r: Option<nat>)
    requires Below(order, |entries|)
    ensures r.Some? ==> r.value < |entries| && entries[r.value].name == name
    ensures r.None? ==> forall i :: i in order ==> i < |entries| && entries[i].name != name
  {
    if order == [] then None
    else if entries[order[0]].name == name then Some(order[0])
    else FirstNamed(entries, order[1..], name)
  }

  function Found(walk: Walk, entries: seq<TypeInfo>, name: string): (r: Option<nat>)
    ensures r.Some? <==> Known(entries, name)
    ensures r.Some? ==> r.value < |entries| && entries[r.value].name == name
  {
    FirstNamed(entries, walk(|entries|), name)
  }

  /** The summed size and the list of the first `n` fields. */
  function FieldsOf(walk: Walk, entries: seq<TypeInfo>, named: seq<Field>, n: nat): Option<(nat, seq<(int, string)>)>
    requires n <= |named|
  {
    if n == 0 then Some((0, [])) else
      var r :- FieldsOf(walk, entries, named, n - 1);
      var i :- Found(walk, entries, named[n - 1].1);
      Some((r.0 + entries[i].size, r.1 + [(entries[i].id, named[n - 1].0)]))
  }

  /** The next entry. Nothing, when a field has an unknown type. */
  function NewType(walk: Walk, entries: seq<TypeInfo>, newName: string, oldType: VarType): Option<TypeInfo> {
    if oldType.Named? then Some(TypeInfo(Number(|entries|), 0, newName, false, [])) else
      var r :- FieldsOf(walk, entries, oldType.fields, |oldType.fields|);
      Some(TypeInfo(Number(|entries|), r.0, newName, true, r.1))
  }

  /** The entries after the first `n` nodes of a program; other nodes than typedefs are
      skipped. */
  function TypesOf(walk: Walk, entries: seq<TypeInfo>, nodes: seq<Node>, n: nat): Option<seq<TypeInfo>>
    requires n <= |nodes|
  {
    if n == 0 then Some(entries) else
      var es :- TypesOf(walk, entries, nodes, n - 1);
      if !nodes[n - 1].TypedefNode? then Some(es) else
        var t :- NewType(walk, es, nodes[n - 1].newName, nodes[n - 1].oldType);
        Some(es + [t])
  }

  /** What a search for each name comes to, as far as the compiler needs it: the size. */
  ghost function SizesOf(walk: Walk, entries: seq<TypeInfo>): Sizes {
    map name | name in Names(entries) && Found(walk, entries, name).Some? ::
      entries[Found(walk, entries, name).value].size
  }

  ghost function Names(entries: seq<TypeInfo>): set<string> {
    set t | t in entries :: t.name
  }

  lemma KnownIsNamed(entries: seq<TypeInfo>, name: string)
    ensures Known(entries, name) <==> name in Names(entries)
  {
    if name in Names(entries) {
      var t :| t in entries && t.name == name;
    }
  }

  /** The names typedefs among the first `n` nodes give. */
  ghost function NamesGiven(nodes: seq<Node>, n: nat): set<string>
    requires n <= |nodes|
  {
    if n == 0 then {} else
      NamesGiven(nodes, n - 1) + if nodes[n - 1].TypedefNode? then {nodes[n - 1].newName} else {}
  }

  /** Every struct among the first `n` nodes has only fields of types in `names` or of
      types that typedefs before it name. */
  ghost predicate FieldsKnown(names: set<string>, nodes: seq<Node>, n: nat)
    requires n <= |nodes|
  {
    forall k, j ::
      0 <= k < n && nodes[k].TypedefNode? && nodes[k].oldType.StructType? && 0 <= j < |nodes[k].oldType.fields| ==>
        nodes[k].oldType.fields[j].1 in names + NamesGiven(nodes, k)
  }

  lemma {:induction false} FieldsExact(walk: Walk, entries: seq<TypeInfo>, named: seq<Field>, n: nat)
    requires Ordered(entries) && n <= |named|
    ensures var r := FieldsOf(walk, entries, named, n);
            && (r.Some? <==> forall k :: 0 <= k < n ==> Known(entries, named[k].1))
            && (r.Some? ==>
                  && Earlier(entries, r.value.1) && Matching(entries, r.value.1, named[..n])
                  && r.value.0 == RecordedSum(entries, r.value.1))
  {
    hide Ordered, RecordedSum, Matching, Earlier, Known, Found;
    if n == 0 {
      NoFields(entries);
    } else {
      FieldsExact(walk, entries, named, n - 1);
      var r, i := FieldsOf(walk, entries, named, n - 1), Found(walk, entries, named[n - 1].1);
      if r.Some? && i.Some? {
        FieldAdded(entries, r.value.1, named[..n - 1], entries[i.value], named[n - 1]);
        assert named[..n - 1] + [named[n - 1]] == named[..n];
      }
    }
  }

  /** A typedef is entered if and only if its fields are of known types; the entry has a
      fresh number, the named fields, and as many bytes as its basic parts. */
  lemma NewTypeExact(walk: Walk, entries: seq<TypeInfo>, newName: string, oldType: VarType)
    requires Ordered(entries) && Sized(entries)
    ensures var r := NewType(walk, entries, newName, oldType);
            && (r.Some? <==> (oldType.StructType? ==>
                                forall k :: 0 <= k < |oldType.fields| ==> Known(entries, oldType.fields[k].1)))
            && (r.Some? ==>
                  && Ordered(entries + [r.value]) && Sized(entries + [r.value])
                  && Describes(entries + [r.value], |entries|, newName, oldType))
  {
    hide FieldsOf, Known, Ordered, Sized, RecordedSum, Matching, Earlier;
    if oldType.StructType? {
      FieldsExact(walk, entries, oldType.fields, |oldType.fields|);
      assert oldType.fields[..|oldType.fields|] == oldType.fields;
    } else {
      NoFields(entries);
    }
    var r := NewType(walk, entries, newName, oldType);
    if r.Some? {
      Entered(entries, r.value, newName, oldType);
    }
  }

  lemma Entered(entries: seq<TypeInfo>, t: TypeInfo, newName: string, oldType: VarType)
    requires Ordered(entries) && Sized(entries) && Earlier(entries, t.fields)
    requires t.id == Number(|entries|) && t.name == newName && t.isStruct == oldType.StructType?
    requires Matching(entries, t.fields, if oldType.StructType? then oldType.fields else [])
    requires if t.isStruct then t.size == RecordedSum(entries, t.fields) else t.size == 0
    ensures var all := entries + [t];
            Ordered(all) && Sized(all) && Describes(all, |entries|, newName, oldType)
  {
    hide LeafBytes, RecordedSum;
    AppendOrdered(entries, t);
    StructSized(entries, t);
    assert (entries + [t])[|entries|] == t;
  }

  /** Any sequence of typedefs goes through if and only if every struct's fields are of
      types already named; then the entries are exactly the typedefs, in order, each sized
      by its basic parts. */
  lemma {:induction false} TypesExact(walk: Walk, entries: seq<TypeInfo>, nodes: seq<Node>, n: nat)
    requires Ordered(entries) && Sized(entries) && n <= |nodes|
    ensures var r := TypesOf(walk, entries, nodes, n);
            && (r.Some? <==> FieldsKnown(Names(entries), nodes, n))
            && (r.Some? ==>
                  && entries <= r.value && Ordered(r.value) && Sized(r.value)
                  && Holds(r.value, |entries|, Typedefs(nodes[..n]))
                  && Names(r.value) == Names(entries) + NamesGiven(nodes, n))
  {
    hide Ordered, Sized, Describes, NewType, Known, Names, NamesGiven;
    if n == 0 {
      assert NamesGiven(nodes, 0) == {} by { NoNames(nodes); }
    } else {
      TypesExact(walk, entries, nodes, n - 1);
      assert nodes[..n][..n - 1] == nodes[..n - 1];
      var es, node := TypesOf(walk, entries, nodes, n - 1), nodes[n - 1];
      assert NamesGiven(nodes, n) == NamesGiven(nodes, n - 1) + (if node.TypedefNode? then {node.newName} else {}) by {
        NamesStep(nodes, n);
      }
      if es.Some? && node.TypedefNode? {
        TypeEntered(walk, es.value, node);
        var t := NewType(walk, es.value, node.newName, node.oldType);
        if t.Some? {
          HoldsOn(es.value, t.value, |entries|, Typedefs(nodes[..n - 1]), node);
        }
      }
    }
  }

  lemma NoNames(nodes: seq<Node>)
    ensures NamesGiven(nodes, 0) == {}
  {
  }

  lemma NamesStep(nodes: seq<Node>, n: nat)
    requires 0 < n <= |nodes|
    ensures NamesGiven(nodes, n) ==
            NamesGiven(nodes, n - 1) + if nodes[n - 1].TypedefNode? then {nodes[n - 1].newName} else {}
  {
  }

  /** One typedef, in terms of names. */
  lemma TypeEntered(walk: Walk, entries: seq<TypeInfo>, node: Node)
    requires Ordered(entries) && Sized(entries) && node.TypedefNode?
    ensures var r := NewType(walk, entries, node.newName, node.oldType);
            && (r.Some? <==>
                  (node.oldType.StructType? ==>
                     forall j :: 0 <= j < |node.oldType.fields| ==> node.oldType.fields[j].1 in Names(entries)))
            && (r.Some? ==>
                  && Ordered(entries + [r.value]) && Sized(entries + [r.value])
                  && Describes(entries + [r.value], |entries|, node.newName, node.oldType)
                  && Names(entries + [r.value]) == Names(entries) + {node.newName})
  {
    hide Ordered, Sized, NewType, Known, LeafBytes;
    NewTypeExact(walk, entries, node.newName, node.oldType);
    forall name ensures Known(entries, name) <==> name in Names(entries) {
      KnownIsNamed(entries, name);
    }
    var r := NewType(walk, entries, node.newName, node.oldType);
    if r.Some? {
      NamesAppend(entries, r.value);
      assert (entries + [r.value])[|entries|] == r.value;
    }
  }

  lemma NamesAppend(entries: seq<TypeInfo>, t: TypeInfo)
    ensures Names(entries + [t]) == Names(entries) + {t.name}
  {
    forall name ensures name in Names(entries + [t]) <==> name in Names(entries) + {t.name} {
      if name in Names(entries) {
        var u :| u in entries && u.name == name;
        assert u in entries + [t];
      }
      assert t in entries + [t];
    }
  }

  // ----- the table itself -----

  class TypeTable {
    const walk: Walk
    var table: map<int, TypeInfo>
    ghost var entries: seq<TypeInfo>

    ghost predicate Valid()
      reads this
    {
      && Ordered(entries) && Sized(entries) && |entries| == |table| && entries != []
      && (forall i :: 0 <= i < |entries| ==> Number(i) in table && table[Number(i)] == entries[i])
      && (forall id :: id in table ==> 0 <= Position(id) < |entries| && id == Number(Position(id)))
    }

    constructor (walk: Walk)
      ensures Valid() && this.walk == walk && entries == BASIC
    {
      this.walk := walk;
      table := map[10 := BASIC[0], 20 := BASIC[1], 30 := BASIC[2], 40 := BASIC[3]];
      entries := BASIC;
      new;
      hide Ordered, Sized;
      BasicTypes();
    }

    /** The largest number in the table, whatever order the table is walked in. */
    method MaxTypeId() returns (max: int)
      requires Valid()
      ensures max == 10 * |entries|
    {
      hide Ordered, Sized;
      max := -1;
      var order := walk(|table|);
      for i := 0 to |order|
        invariant Below(order, |entries|)
        invariant -1 <= max <= 10 * |entries|
        invariant forall j :: 0 <= j < i ==> Number(order[j]) <= max
      {
        NumberedAt(entries, order[i]);
        if table[Number(order[i])].id > max {
          max := table[Number(order[i])].id;
        }
      }
      assert |entries| - 1 in order;
    }

    /** The first type of that name that the walk meets. */
    method FindByName(name: string) returns (r: Option<TypeInfo>)
      requires Valid()
      ensures var i := Found(walk, entries, name); r == if i.None? then None else Some(entries[i.value])
    {
      hide Ordered, Sized;
      var order := walk(|table|);
      for i := 0 to |order|
        invariant Below(order, |entries|) && Below(order[i..], |entries|)
        invariant FirstNamed(entries, order, name) == FirstNamed(entries, order[i..], name)
      {
        assert order[i..][0] == order[i] && order[i..][1..] == order[i + 1..];
        if table[Number(order[i])].name == name {
          return Some(table[Number(order[i])]);
        }
      }
      assert order[|order|..] == [];
      r := None;
    }

    /** Enters a type under its number; a number already there keeps its entry. */
    method Insert(t: TypeInfo)
      modifies this`table
      ensures table == if t.id in old(table) then old(table) else old(table)[t.id := t]
    {
      if t.id !in table {
        table := table[t.id := t];
      }
    }

    /** Looks up the type of each field and sums the sizes, up to the first unknown type. */
    method ReadFields(named: seq<Field>) returns (r: Option<(nat, seq<(int, string)>)>)
      requires Valid()
      ensures r == FieldsOf(walk, entries, named, |named|)
    {
      hide Valid, Found;
      var size, fields := 0, [];
      for k := 0 to |named|
        invariant FieldsOf(walk, entries, named, k) == Some((size, fields))
      {
        var found := FindByName(named[k].1);
        if found.None? {
          NoField(walk, entries, named, k, |named|);
          return None;
        }
        size, fields := size + found.value.size, fields + [(found.value.id, named[k].0)];
      }
      r := Some((size, fields));
    }

    /** Adds a struct, or a name without a size for any other typedef. A field of an unknown
        type has no defined effect: `ok` is then false. */
    method CompileTypedef(newName: string, oldType: VarType) returns (ok: bool)
      requires Valid()
      modifies this
      ensures Valid()
      ensures var t := NewType(walk, old(entries), newName, oldType);
              ok == t.Some? && entries == if ok then old(entries) + [t.value] else old(entries)
    {
      hide Ordered, Sized, FieldsOf;
      var max := MaxTypeId();
      var size, fields := 0, [];
      NewTypeExact(walk, entries, newName, oldType);
      if oldType.StructType? {
        var r := ReadFields(oldType.fields);
        if r.None? { return false; }
        size, fields := r.value.0, r.value.1;
      }
      var t := TypeInfo(max + 10, size, newName, oldType.StructType?, fields);
      assert max + 10 == Number(|entries|) && Number(|entries|) !in table;
      Insert(t);
      entries := entries + [t];
      ok := true;
    }

    /** Runs through the nodes of a program; other nodes than typedefs are skipped. */
    method CompileTypes(nodes: seq<Node>) returns (ok: bool)
      requires Valid()
      modifies this
      ensures Valid()
      ensures ok <==> FieldsKnown(Names(old(entries)), nodes, |nodes|)
      ensures if ok then TypesOf(walk, old(entries), nodes, |nodes|) == Some(entries)
              else TypesOf(walk, old(entries), nodes, |nodes|) == None
      ensures ok ==> old(entries) <= entries && Holds(entries, |old(entries)|, Typedefs(nodes))
    {
      hide Ordered, Sized, NewType, FieldsKnown, Names, Holds;
      TypesExact(walk, entries, nodes, |nodes|);
      assert nodes[..|nodes|] == nodes;
      for i := 0 to |nodes|
        invariant Valid() && TypesOf(walk, old(entries), nodes, i) == Some(entries)
      {
        if nodes[i].TypedefNode? {
          ok := CompileTypedef(nodes[i].newName, nodes[i].oldType);
          if !ok {
            NoType(walk, old(entries), nodes, i, |nodes|);
            return;
          }
        }
      }
      ok := true;
    }
  }

  lemma NumberedAt(entries: seq<TypeInfo>, i: nat)
    requires Ordered(entries) && i < |entries|
    ensures entries[i].id == Number(i)
  {
  }

  /** Once a field is missing, the rest does not bring it back. */
  lemma {:induction false} NoField(walk: Walk, entries: seq<TypeInfo>, named: seq<Field>, k: nat, n: nat)
    requires k < n <= |named| && Found(walk, entries, named[k].1).None?
    ensures FieldsOf(walk, entries, named, n).None?
  {
    hide Found;
    if k + 1 < n {
      NoField(walk, entries, named, k, n - 1);
    }
  }

  lemma {:induction false} NoType(walk: Walk, entries: seq<TypeInfo>, nodes: seq<Node>, k: nat, n: nat)
    requires k < n <= |nodes| && TypesOf(walk, entries, nodes, k + 1).None?
    ensures TypesOf(walk, entries, nodes, n).None?
  {
    hide NewType;
    if k + 1 < n {
      NoType(walk, entries, nodes, k, n - 1);
    }
  }

  ghost predicate Known(entries: seq<TypeInfo>, name: string) {
    exists i :: 0 <= i < |entries| && entries[i].name == name
  }

  /** Entry `n` is the typedef: its name, its fields in order, each of an entry of the named
      name, and as many bytes as its basic parts. */
  ghost predicate Describes(entries: seq<TypeInfo>, n: nat, newName: string, oldType: VarType)
    requires n < |entries| && Ordered(entries)
  {
    var t := entries[n];
    && t.name == newName && t.isStruct == oldType.StructType? && t.size == LeafBytes(entries, n)
    && Matching(entries, t.fields, if oldType.StructType? then oldType.fields else [])
    && (oldType.Named? ==> t.size == 0)
  }

  ghost function Typedefs(nodes: seq<Node>): (defs: seq<Node>)
    ensures forall k :: 0 <= k < |defs| ==> defs[k].TypedefNode?
  {
    if nodes == [] then [] else
      var last := nodes[|nodes| - 1];
      Typedefs(nodes[..|nodes| - 1]) + if last.TypedefNode? then [last] else []
  }

  /** The entries from position `from` on are the typedefs, in order. */
  ghost predicate Holds(entries: seq<TypeInfo>, from: nat, defs: seq<Node>)
    requires Ordered(entries)
  {
    && |entries| == from + |defs|
    && forall k :: 0 <= k < |defs| ==>
         defs[k].TypedefNode? && Describes(entries, from + k, defs[k].newName, defs[k].oldType)
  }

  lemma DescribesOn(entries: seq<TypeInfo>, t: TypeInfo, n: nat, newName: string, oldType: VarType)
    requires Ordered(entries) && Ordered(entries + [t]) && n < |entries| && Describes(entries, n, newName, oldType)
    ensures Describes(entries + [t], n, newName, oldType)
  {
    hide LeafBytes;
    assert (entries + [t])[n] == entries[n];
    LeafBytesKept(entries, [t], n);
  }

  /** A later entry changes nothing that earlier ones describe. */
  lemma HoldsOn(entries: seq<TypeInfo>, t: TypeInfo, from: nat, defs: seq<Node>, def: Node)
    requires Ordered(entries) && Ordered(entries + [t]) && Holds(entries, from, defs)
    requires def.TypedefNode? && Describes(entries + [t], |entries|, def.newName, def.oldType)
    ensures Holds(entries + [t], from, defs + [def])
  {
    hide Ordered, Describes;
    forall k | 0 <= k < |defs| ensures Describes(entries + [t], from + k, defs[k].newName, defs[k].oldType) {
      DescribesOn(entries, t, from + k, defs[k].newName, defs[k].oldType);
    }
  }

  ghost predicate Distinct(entries: seq<TypeInfo>) {
    forall i, j :: 0 <= i < j < |entries| ==> entries[i].name != entries[j].name
  }

  /** With distinct names, the order in which the table is searched does not matter: the
      typedefs alone settle every number, field and size. */
  lemma {:induction false} SearchOrderIrrelevant(a: seq<TypeInfo>, b: seq<TypeInfo>, from: nat, defs: seq<Node>, n: nat)
    requires Ordered(a) && Ordered(b) && Sized(a) && Sized(b) && Distinct(a)
    requires Holds(a, from, defs) && Holds(b, from, defs)
    requires a[..from] == b[..from] && n <= |defs|
    ensures a[..from + n] == b[..from + n]
  {
    hide Ordered, Sized, Distinct, Describes;
    if n > 0 {
      SearchOrderIrrelevant(a, b, from, defs, n - 1);
      var m := from + n - 1;
      forall i | 0 <= i < m ensures a[i] == b[i] {
        assert a[i] == a[..m][i] && b[i] == b[..m][i];
      }
      SameEntry(a, b, m, defs[n - 1]);
      assert a[..m + 1] == a[..m] + [a[m]] && b[..m + 1] == b[..m] + [b[m]];
    }
  }

  lemma SameEntry(a: seq<TypeInfo>, b: seq<TypeInfo>, m: nat, def: Node)
    requires m < |a| && m < |b| && Ordered(a) && Ordered(b) && Sized(a) && Sized(b) && Distinct(a)
    requires forall i :: 0 <= i < m ==> a[i] == b[i]
    requires def.TypedefNode? && Describes(a, m, def.newName, def.oldType) && Describes(b, m, def.newName, def.oldType)
    ensures a[m] == b[m]
  {
    hide FieldBytes, Distinct;
    SameFields(a, b, m, def);
    SameBytes(a, b, m, |a[m].fields|);
    assert a[m].id == Number(m) == b[m].id;
  }

  lemma SameFields(a: seq<TypeInfo>, b: seq<TypeInfo>, m: nat, def: Node)
    requires m < |a| && m < |b| && Ordered(a) && Ordered(b) && Distinct(a)
    requires forall i :: 0 <= i < m ==> a[i] == b[i]
    requires def.TypedefNode? && Describes(a, m, def.newName, def.oldType) && Describes(b, m, def.newName, def.oldType)
    ensures a[m].fields == b[m].fields
  {
    forall k | 0 <= k < |a[m].fields| ensures a[m].fields[k] == b[m].fields[k] {
      var i, j := Position(a[m].fields[k].0), Position(b[m].fields[k].0);
      assert a[i].name == a[j].name;
      assert a[m].fields[k].0 == b[m].fields[k].0;
    }
  }

  lemma {:induction false} SameBytes(a: seq<TypeInfo>, b: seq<TypeInfo>, m: nat, k: nat)
    requires m < |a| && m < |b| && Ordered(a) && Ordered(b) && Sized(a) && Sized(b)
    requires (forall i :: 0 <= i < m ==> a[i] == b[i]) && a[m].fields == b[m].fields && k <= |a[m].fields|
    ensures FieldBytes(a, m, k) == FieldBytes(b, m, k)
    decreases k
  {
    if k > 0 {
      SameBytes(a, b, m, k - 1);
    }
  }

  /** So, with distinct names, all walks give one table. */
  lemma AnyWalk(walk: Walk, other: Walk, entries: seq<TypeInfo>, nodes: seq<Node>)
    requires Ordered(entries) && Sized(entries) && TypesOf(walk, entries, nodes, |nodes|).Some?
    requires Distinct(TypesOf(walk, entries, nodes, |nodes|).value)
    ensures TypesOf(other, entries, nodes, |nodes|) == TypesOf(walk, entries, nodes, |nodes|)
  {
    hide Ordered, Sized, Distinct, Holds, FieldsKnown, Names, TypesOf;
    TypesExact(walk, entries, nodes, |nodes|);
    TypesExact(other, entries, nodes, |nodes|);
    var a, b := TypesOf(walk, entries, nodes, |nodes|).value, TypesOf(other, entries, nodes, |nodes|).value;
    var defs := Typedefs(nodes[..|nodes|]);
    HoldsAll(a, |entries|, defs);
    HoldsAll(b, |entries|, defs);
    SearchOrderIrrelevant(a, b, |entries|, defs, |defs|);
    assert a[..|a|] == a && b[..|b|] == b;
  }

  lemma HoldsAll(entries: seq<TypeInfo>, from: nat, defs: seq<Node>)
    requires Ordered(entries) && Holds(entries, from, defs)
    ensures |entries| == from + |defs|
  {
  }

  // ----- the types of a program -----

  lemma Answers(walk: Walk, entries: seq<TypeInfo>, name: string)
    ensures var i, sizes := Found(walk, entries, name), SizesOf(walk, entries);
            (i.Some? <==> name in sizes) && (i.Some? ==> sizes[name] == entries[i.value].size)
    ensures name in SizesOf(walk, entries) <==> name in Names(entries)
  {
    hide Found;
    KnownIsNamed(entries, name);
  }

  /** Every global variable has a type that `sizes` has. */
  predicate GlobalsTyped(sizes: Sizes, nodes: seq<Node>) {
    forall k :: 0 <= k < |nodes| && nodes[k].DeclNode? ==> TypeName(nodes[k].decl.varType) in sizes
  }

  /** The sizes of a program's types. Nothing, when compiling it breaks off: a struct has a
      field, or a global variable, of an unknown type. */
  ghost function ProgramSizes(walk: Walk, nodes: seq<Node>): Option<Sizes> {
    var entries :- TypesOf(walk, BASIC, nodes, |nodes|);
    if GlobalsTyped(SizesOf(walk, entries), nodes) then Some(SizesOf(walk, entries)) else None
  }

  /** All types of a program by name. */
  ghost function TypeNames(nodes: seq<Node>): set<string> {
    {"bool", "int", "float32", "string"} + NamesGiven(nodes, |nodes|)
  }

  /** Struct fields have types named before; global variables have types named anywhere. */
  ghost predicate WellTyped(nodes: seq<Node>) {
    && FieldsKnown({"bool", "int", "float32", "string"}, nodes, |nodes|)
    && forall k :: 0 <= k < |nodes| && nodes[k].DeclNode? ==> TypeName(nodes[k].decl.varType) in TypeNames(nodes)
  }

  lemma BasicTypes()
    ensures Ordered(BASIC) && Sized(BASIC) && Names(BASIC) == {"bool", "int", "float32", "string"}
  {
    forall i | 0 <= i < |BASIC| ensures BASIC[i].size == LeafBytes(BASIC, i) {}
    forall name ensures name in Names(BASIC) <==> name in {"bool", "int", "float32", "string"} {
      assert BASIC[0].name == "bool" && BASIC[1].name == "int";
      assert BASIC[2].name == "float32" && BASIC[3].name == "string";
      if name in Names(BASIC) {
        var t :| t in BASIC && t.name == name;
      }
    }
  }

  /** Compiling gets past a program's types and globals exactly when it is well typed. */
  lemma WellTypedExact(walk: Walk, nodes: seq<Node>)
    ensures ProgramSizes(walk, nodes).Some? <==> WellTyped(nodes)
    ensures ProgramSizes(walk, nodes).Some? ==> ProgramSizes(walk, nodes).value.Keys == TypeNames(nodes)
  {
    hide TypesOf, SizesOf, Names, FieldsKnown, Holds, NamesGiven, Ordered, Sized;
    BasicTypes();
    TypesExact(walk, BASIC, nodes, |nodes|);
    var r := TypesOf(walk, BASIC, nodes, |nodes|);
    if r.Some? {
      forall name ensures name in SizesOf(walk, r.value) <==> name in TypeNames(nodes) {
        Answers(walk, r.value, name);
      }
    }
  }

  /** Without typedefs there are the basic sizes, for every walk. */
  lemma BasicSizes(walk: Walk, nodes: seq<Node>)
    requires forall k :: 0 <= k < |nodes| ==> !nodes[k].TypedefNode?
    ensures TypesOf(walk, BASIC, nodes, |nodes|) == Some(BASIC)
    ensures SizesOf(walk, BASIC) == map["bool" := 1, "int" := 4, "float32" := 4, "string" := 16]
  {
    hide SizesOf, Names, Ordered, Sized, Found;
    NoTypedefs(walk, nodes, |nodes|);
    BasicTypes();
    var sizes, basic := SizesOf(walk, BASIC), map["bool" := 1, "int" := 4, "float32" := 4, "string" := 16];
    forall name ensures (name in sizes <==> name in basic) && (name in sizes ==> sizes[name] == basic[name]) {
      Answers(walk, BASIC, name);
      if name in sizes {
        BasicAt(Found(walk, BASIC, name).value);
      }
    }
  }

  lemma BasicAt(i: nat)
    requires i < |BASIC|
    ensures (BASIC[i].name, BASIC[i].size) in {("bool", 1), ("int", 4), ("float32", 4), ("string", 16)}
  {
  }

  lemma {:induction false} NoTypedefs(walk: Walk, nodes: seq<Node>, n: nat)
    requires n <= |nodes| && forall k :: 0 <= k < n ==> !nodes[k].TypedefNode?
    ensures TypesOf(walk, BASIC, nodes, n) == Some(BASIC)
  {
    if n > 0 {
      NoTypedefs(walk, nodes, n - 1);
    }
  }

  /** The same nodes, but for functions. */
  predicate OnlyFunctionsDiffer(nodes: seq<Node>, others: seq<Node>) {
    |others| == |nodes| && forall k :: 0 <= k < |nodes| ==>
                             others[k] == nodes[k] || (others[k].FuncNode? && nodes[k].FuncNode?)
  }

  /** Functions have no part in the types. */
  lemma OtherFunctions(walk: Walk, nodes: seq<Node>, others: seq<Node>)
    requires OnlyFunctionsDiffer(nodes, others)
    ensures ProgramSizes(walk, others) == ProgramSizes(walk, nodes)
    ensures WellTyped(others) <==> WellTyped(nodes)
  {
    hide TypesOf, SizesOf, WellTyped, TypeNames;
    SameGlobals(nodes, others);
    SameTypes(walk, nodes, others, |nodes|);
    WellTypedExact(walk, nodes);
    WellTypedExact(walk, others);
  }

  lemma SameGlobals(nodes: seq<Node>, others: seq<Node>)
    requires OnlyFunctionsDiffer(nodes, others)
    ensures forall sizes :: GlobalsTyped(sizes, others) <==> GlobalsTyped(sizes, nodes)
  {
    assert forall k :: 0 <= k < |nodes| ==> (nodes[k].DeclNode? <==> others[k].DeclNode?);
    assert forall k :: 0 <= k < |nodes| && nodes[k].DeclNode? ==> nodes[k] == others[k];
  }

  lemma {:induction false} SameTypes(walk: Walk, nodes: seq<Node>, others: seq<Node>, n: nat)
    requires OnlyFunctionsDiffer(nodes, others) && n <= |nodes|
    ensures TypesOf(walk, BASIC, others, n) == TypesOf(walk, BASIC, nodes, n)
  {
    hide NewType;
    if n > 0 {
      SameTypes(walk, nodes, others, n - 1);
    }
  }
}
