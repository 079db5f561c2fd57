/** The decoder state of src/state.cpp: string tables, the registry of classes,
    send tables and compiled send tables, and the fixed pool of entity slots.
    Compilation is built on the Compiler module's flattening and reordering. */
module States {
  import opened Wrappers
  import opened Bits
  import opened Schema
  import opened Dictionaries
  import opened Compiler
  import opened Entities
  import Properties

  /** MAX_ENTITIES: the number of entity slots. */
  const MAX_ENTITIES: nat := 0x3FFF

  /** ST_Flags. */
  const ST_SOMETHING: U32 := 2
  const ST_FIXED_LENGTH: U32 := 8

  // --------------------------------------------------------------------- log2

  /** r is the least exponent with 2^r >= n. */
  predicate IsCeilLog2(n: nat, r: nat) {
    Pow2(r) >= n && (r == 0 || Pow2(r - 1) < n)
  }

  /** log2: fails for 0; otherwise doubles an accumulator from 1 until it reaches n
      and returns the number of doublings, the least r with 2^r >= n. */
  method Log2(n: U32) returns (r: Result<nat>)
    ensures r.Ok? <==> n >= 1
    ensures r.Ok? ==> IsCeilLog2(n, r.value) && r.value <= 32
  {
    if n < 1 {
      return Err(FormatViolation("Invalid number passed to log2."));
    }
    var bits: nat := 0;
    var acc: nat := 1;
    while acc < n
      invariant acc == Pow2(bits) && (bits == 0 || Pow2(bits - 1) < n)
      decreases n - acc
    {
      bits := bits + 1;
      acc := acc * 2;
    }
    if bits > 32 {
      Pow2Monotone(32, bits - 1);
      Pow2Constants();
      assert false;
    }
    r := Ok(bits);
  }

  /** log2(n) is the bit length of n - 1, the width get_array_length_bits computes;
      in particular the least exponent is unique. */
  lemma {:induction false} CeilLog2IsBitLength(n: nat, r: nat)
    requires n >= 1
    ensures IsCeilLog2(n, r) <==> r == Properties.BitLength(n - 1)
  {
    var b := Properties.BitLength(n - 1);
    Properties.BitLengthIsLeast(n - 1);
    assert IsCeilLog2(n, b);
    if IsCeilLog2(n, r) && r != b {
      if r < b {
        Pow2Monotone(r, b - 1);
      } else {
        Pow2Monotone(b, r - 1);
      }
    }
  }

  // ------------------------------------------------------------- StringTable

  /** A string-table entry: its key and value. */
  datatype Entry = Entry(key: Bytes, value: Bytes)

  /** The GetEntryKey functor. */
  function EntryKey(e: Entry): Bytes {
    e.key
  }

  /** A string table: its parameters, the width of an entry id, and the entries
      in insertion order (the DictionaryList's elements; the by-key map is the
      Dictionaries model's IndexOf of them). */
  class StringTable {
    const name: string
    const maxEntries: U32
    const userDataFixedSize: bool
    const userDataSize: U32
    const userDataSizeBits: U32
    const flags: U32
    const entryBits: nat
    var entries: seq<Entry>

    /** StringTable(...): no entries, and an entry id as wide as log2(max_entries). */
    constructor (name: string, maxEntries: U32, userDataFixedSize: bool, userDataSize: U32,
                 userDataSizeBits: U32, flags: U32)
      requires maxEntries >= 1
      ensures this.name == name && this.maxEntries == maxEntries && this.userDataFixedSize == userDataFixedSize
      ensures this.userDataSize == userDataSize && this.userDataSizeBits == userDataSizeBits && this.flags == flags
      ensures IsCeilLog2(maxEntries, entryBits) && entryBits <= 32 && entries == []
    {
      var bits := Log2(maxEntries);
      this.name := name;
      this.maxEntries := maxEntries;
      this.userDataFixedSize := userDataFixedSize;
      this.userDataSize := userDataSize;
      this.userDataSizeBits := userDataSizeBits;
      this.flags := flags;
      entryBits := bits.value;
      entries := [];
    }

    /** contains(key): some entry has the key. */
    function Contains(key: Bytes): (b: bool)
      reads this
      ensures b <==> exists i :: 0 <= i < |entries| && entries[i].key == key
    {
      Find(entries, EntryKey, key).Ok?
    }

    /** count(): the number of entries. */
    function Count(): (c: nat)
      reads this
      ensures c == 0 <==> forall key :: !Contains(key)
    {
      assert |entries| > 0 ==> Contains(entries[0].key);
      |entries|
    }

    /** get(i): the entry at a position below count(); fails otherwise. */
    function Get(i: nat): (r: Result<Entry>)
      reads this
      ensures r.Ok? <==> i < Count()
      ensures r.Ok? ==> r.value == entries[i]
    {
      if i < |entries| then Ok(entries[i]) else Err(FormatViolation("Requested index out of bounds."))
    }

    /** get(key): the entry with that key; fails when there is none. */
    function GetKey(key: Bytes): (r: Result<Entry>)
      reads this
      ensures r.Ok? <==> Contains(key)
      ensures r.Ok? ==> r.value.key == key && r.value in entries
    {
      Find(entries, EntryKey, key)
    }

    /** put(key, value): fails when the key is present; otherwise appends the
        entry, which get(key) and get(count() - 1) then return. */
    method Put(key: Bytes, value: Bytes) returns (r: Result<Entry>)
      modifies this
      ensures r.Err? <==> old(Contains(key))
      ensures r.Err? ==> r.error == FormatViolation("Entry already exists.") && entries == old(entries)
      ensures r.Ok? ==> r.value == Entry(key, value) && entries == old(entries) + [Entry(key, value)]
      ensures r.Ok? ==> Count() == old(Count()) + 1 && Get(Count() - 1) == Ok(Entry(key, value))
      ensures r.Ok? ==> GetKey(key) == Ok(Entry(key, value))
    {
      if Contains(key) {
        return Err(FormatViolation("Entry already exists."));
      }
      entries := entries + [Entry(key, value)];
      r := Ok(Entry(key, value));
      var found := Find(entries, EntryKey, key);
      assert EntryKey(entries[|entries| - 1]) == key;
    }
  }

  /** The GetStringTableName functor. */
  function StringTableName(t: StringTable): string {
    t.name
  }

  // ------------------------------------------------------------------- State

  /** A compiled table for `table`: the same name, and the flattened props of the
      table, as a permutation ordered by bucket. */
  ghost predicate CompiledFrom(tables: seq<SendTable>, table: SendTable, flat: FlatSendTable) {
    && flat.name == table.name
    && Hierarchy(tables, table).Ok?
    && multiset(flat.props) == multiset(Hierarchy(tables, table).value)
    && SortedByKey(flat.props)
  }

  /** `compiled` holds, in order, a compiled table for each of the first
      `|compiled|` send tables of `tables`. */
  ghost predicate AllCompiled(tables: seq<SendTable>, compiled: seq<FlatSendTable>)
  {
    |compiled| <= |tables| && forall j :: 0 <= j < |compiled| ==> CompiledFrom(tables, tables[j], compiled[j])
  }

  /** One more compiled table keeps the run of compiled tables in order. */
  lemma {:induction false} AllCompiledStep(tables: seq<SendTable>, compiled: seq<FlatSendTable>, next: FlatSendTable)
    requires AllCompiled(tables, compiled) && |compiled| < |tables|
    requires CompiledFrom(tables, tables[|compiled|], next)
    ensures AllCompiled(tables, compiled + [next])
  {
    assert forall j :: 0 <= j < |compiled| ==> (compiled + [next])[j] == compiled[j];
  }

  /** A compiled table for every send table means every send table flattens. */
  lemma {:induction false} AllCompiledFlatten(tables: seq<SendTable>, compiled: seq<FlatSendTable>)
    requires AllCompiled(tables, compiled) && |compiled| == |tables|
    ensures forall j :: 0 <= j < |tables| ==> Hierarchy(tables, tables[j]).Ok?
  {
    forall j | 0 <= j < |tables|
      ensures Hierarchy(tables, tables[j]).Ok?
    {
      assert CompiledFrom(tables, tables[j], compiled[j]);
    }
  }

  /** The ordering step of compile_send_table: the bucket list (64 and every
      priority, ascending), then one swap pass per bucket. */
  method OrderByBucket(flat: seq<SendProp>) returns (ordered: seq<SendProp>)
    ensures multiset(ordered) == multiset(flat) && SortedByKey(ordered)
  {
    var priorities := CollectPriorities(flat);
    var sorted := Ascending(set x | x in priorities);
    var props := new SendProp[|flat|](i requires 0 <= i < |flat| => flat[i]);
    assert props[..] == flat;
    forall p | p in props[..]
      ensures Key(p) in sorted
    {
      assert p.priority in priorities;
    }
    Reorder(props, sorted);
    ordered := props[..];
  }

  /** The State class: class registry, send tables in arrival order, compiled
      tables, string tables, and MAX_ENTITIES distinct entity slots. */
  class State {
    const maxClasses: U32
    const classBits: nat
    var sendTables: seq<SendTable>
    var flatSendTables: seq<FlatSendTable>
    var stringTables: seq<StringTable>
    var classes: seq<Class>
    const entities: array<Entity>

    ghost predicate Valid()
      reads this, entities
    {
      && entities.Length == MAX_ENTITIES
      && (forall i, j :: 0 <= i < j < entities.Length ==> entities[i] != entities[j])
      && IsCeilLog2(maxClasses, classBits) && classBits <= 32
    }

    /** State(max_classes): class ids are log2(max_classes) bits wide, and every
        entity slot is empty. */
    constructor (maxClasses: U32)
      requires maxClasses >= 1
      ensures Valid() && this.maxClasses == maxClasses && fresh(entities)
      ensures sendTables == [] && flatSendTables == [] && stringTables == [] && classes == []
      ensures forall i :: 0 <= i < entities.Length ==> fresh(entities[i]) && entities[i].id == NO_ID
    {
      var bits := Log2(maxClasses);
      var slots: seq<Entity> := [];
      while |slots| < MAX_ENTITIES
        invariant |slots| <= MAX_ENTITIES
        invariant forall i, j :: 0 <= i < j < |slots| ==> slots[i] != slots[j]
        invariant forall i :: 0 <= i < |slots| ==> fresh(slots[i]) && slots[i].id == NO_ID
      {
        var slot := new Entity();
        slots := slots + [slot];
      }
      this.maxClasses := maxClasses;
      classBits := bits.value;
      sendTables := [];
      flatSendTables := [];
      stringTables := [];
      classes := [];
      entities := new Entity[MAX_ENTITIES](i requires 0 <= i < |slots| => slots[i]);
    }

    /** dump_SVC_ServerInfo: a second ServerInfo message is an error, and so is a
        max_classes of 0, which log2's XASSERT refuses; otherwise the state is
        built for `maxClasses` classes. */
    static method ServerInfo(current: Option<State>, maxClasses: U32) returns (r: Result<State>)
      ensures r.Ok? <==> current.None? && maxClasses >= 1
      ensures r.Ok? ==> && fresh(r.value) && r.value.Valid() && r.value.maxClasses == maxClasses
                        && r.value.sendTables == [] && r.value.flatSendTables == []
                        && r.value.stringTables == [] && r.value.classes == []
    {
      if current.Some? {
        return Err(FormatViolation("Already seen SVC_ServerInfo."));
      }
      var bits := Log2(maxClasses);
      if bits.Err? {
        return Err(bits.error);
      }
      var state := new State(maxClasses);
      r := Ok(state);
    }

    /** create_class: appends the class. */
    method CreateClass(id: U32, dtName: string, name: string) returns (c: Class)
      modifies this
      ensures c == Class(id, dtName, name) && classes == old(classes) + [c]
      ensures sendTables == old(sendTables) && flatSendTables == old(flatSendTables)
      ensures stringTables == old(stringTables)
    {
      c := Class(id, dtName, name);
      classes := classes + [c];
    }

    /** create_send_table, with the props dump_SVC_SendTable adds right after. */
    method CreateSendTable(name: string, needsDecoder: bool, props: seq<SendProp>) returns (t: SendTable)
      modifies this
      ensures t == SendTable(name, needsDecoder, props) && sendTables == old(sendTables) + [t]
      ensures classes == old(classes) && flatSendTables == old(flatSendTables)
      ensures stringTables == old(stringTables)
    {
      t := SendTable(name, needsDecoder, props);
      sendTables := sendTables + [t];
    }

    /** A string table of that name exists. */
    function HasStringTable(name: string): (b: bool)
      reads this
      ensures b <==> exists i :: 0 <= i < |stringTables| && stringTables[i].name == name
    {
      Find(stringTables, StringTableName, name).Ok?
    }

    /** create_string_table: fails on a name already present, and in log2 on a
        table of no entries; otherwise appends a fresh, empty table. */
    method CreateStringTable(name: string, maxEntries: U32, userDataFixedSize: bool, userDataSize: U32,
                             userDataSizeBits: U32, flags: U32) returns (r: Result<StringTable>)
      modifies this
      ensures r.Err? <==> old(HasStringTable(name)) || maxEntries == 0
      ensures r.Err? ==> stringTables == old(stringTables)
      ensures r.Ok? ==> fresh(r.value) && stringTables == old(stringTables) + [r.value]
      ensures r.Ok? ==> r.value.name == name && r.value.maxEntries == maxEntries && r.value.flags == flags
      ensures r.Ok? ==> r.value.userDataFixedSize == userDataFixedSize && r.value.userDataSize == userDataSize
      ensures r.Ok? ==> r.value.userDataSizeBits == userDataSizeBits && r.value.entries == []
      ensures r.Ok? ==> IsCeilLog2(maxEntries, r.value.entryBits) && r.value.entryBits <= 32
      ensures classes == old(classes) && sendTables == old(sendTables) && flatSendTables == old(flatSendTables)
    {
      if HasStringTable(name) {
        return Err(FormatViolation("StringTable already exists."));
      }
      if maxEntries == 0 {
        return Err(FormatViolation("Invalid number passed to log2."));
      }
      var table := new StringTable(name, maxEntries, userDataFixedSize, userDataSize, userDataSizeBits, flags);
      stringTables := stringTables + [table];
      r := Ok(table);
    }

    /** get_class(i): fails for i past the classes created. */
    function GetClass(i: nat): (r: Result<Class>)
      reads this
      ensures r.Ok? <==> i < |classes|
      ensures r.Ok? ==> r.value == classes[i]
    {
      if i < |classes| then Ok(classes[i]) else Err(FormatViolation("Class does not exist."))
    }

    /** get_string_table(i): the table created i-th; fails past the last. */
    function GetStringTable(i: nat): (r: Result<StringTable>)
      reads this
      ensures r.Ok? <==> i < |stringTables|
      ensures r.Ok? ==> r.value == stringTables[i]
    {
      if i < |stringTables| then Ok(stringTables[i]) else Err(FormatViolation("Requested index out of bounds."))
    }

    /** get_string_table(name): the table of that name; fails when there is none. */
    function GetStringTableNamed(name: string): (r: Result<StringTable>)
      reads this
      ensures r.Ok? <==> HasStringTable(name)
      ensures r.Ok? ==> r.value.name == name && r.value in stringTables
    {
      Find(stringTables, StringTableName, name)
    }

    /** flat_send_tables[name]: the compiled table of that name; fails when there
        is none. */
    function FlatSendTableNamed(name: string): (r: Result<FlatSendTable>)
      reads this
      ensures r.Ok? <==> exists i :: 0 <= i < |flatSendTables| && flatSendTables[i].name == name
      ensures r.Ok? ==> r.value.name == name && r.value in flatSendTables
    {
      Find(flatSendTables, FlatTableName, name)
    }

    /** compile_send_table: gathers the excludes and flattens the table (failing
        as they do), then orders the props by bucket and appends the result. */
    method CompileSendTable(table: SendTable) returns (o: Outcome)
      modifies this
      ensures o.Pass? <==> Hierarchy(sendTables, table).Ok?
      ensures o.Pass? ==> |flatSendTables| == |old(flatSendTables)| + 1
      ensures o.Pass? ==> flatSendTables[..|old(flatSendTables)|] == old(flatSendTables)
      ensures o.Pass? ==> CompiledFrom(sendTables, table, flatSendTables[|old(flatSendTables)|])
      ensures o.Fail? ==> flatSendTables == old(flatSendTables)
      ensures sendTables == old(sendTables) && classes == old(classes) && stringTables == old(stringTables)
    {
      var gathered := Hierarchy(sendTables, table);
      if gathered.Err? {
        return Fail(gathered.error);
      }
      var props := OrderByBucket(gathered.value);
      flatSendTables := flatSendTables + [FlatSendTable(table.name, props)];
      o := Pass;
    }

    /** compile_send_tables: compiles every send table in arrival order; it fails
        exactly when some table fails to flatten. */
    method CompileSendTables() returns (o: Outcome)
      modifies this
      ensures o.Pass? <==> forall j :: 0 <= j < |sendTables| ==> Hierarchy(sendTables, sendTables[j]).Ok?
      ensures o.Pass? ==> exists compiled :: flatSendTables == old(flatSendTables) + compiled && |compiled| == |sendTables| && AllCompiled(sendTables, compiled)
      ensures sendTables == old(sendTables) && classes == old(classes) && stringTables == old(stringTables)
    {
      var k := 0;
      ghost var compiled: seq<FlatSendTable> := [];
      while k < |sendTables|
        invariant k <= |sendTables| && |compiled| == k
        invariant sendTables == old(sendTables) && classes == old(classes) && stringTables == old(stringTables)
        invariant flatSendTables == old(flatSendTables) + compiled
        invariant AllCompiled(sendTables, compiled)
      {
        ghost var before := flatSendTables;
        var result := CompileSendTable(sendTables[k]);
        if result.Fail? {
          return result;
        }
        ghost var next := flatSendTables[|before|];
        assert flatSendTables == before + [next];
        AllCompiledStep(sendTables, compiled, next);
        compiled := compiled + [next];
        k := k + 1;
      }
      AllCompiledFlatten(sendTables, compiled);
      o := Pass;
    }
  }
}
