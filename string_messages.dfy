/** The string-table messages: handle_SVC_CreateStringTable and
    handle_SVC_UpdateStringTable of src/edith.cpp and of src/main.cpp. The two
    files differ only in that src/main.cpp decodes entries of the instance
    baseline table alone, which the `Variant` of the decoder already tells apart. */
module StringMessages {
  import opened Wrappers
  import opened Bits
  import opened Schema
  import opened States
  import opened BitReader
  import opened StringUpdates

  /** CSVCMsg_CreateStringTable, with its fields in the message's own order. */
  datatype CreateTable = CreateTable(
    name: string, maxEntries: U32, flags: U32, userDataFixedSize: bool,
    userDataSize: U32, userDataSizeBits: U32, numEntries: U32, stringData: Bytes)

  /** The settings create_string_table takes, in its parameter order. */
  datatype TableSettings = TableSettings(
    maxEntries: U32, userDataFixedSize: bool, userDataSize: U32, userDataSizeBits: U32, flags: U32)

  /** What both handlers pass: the message's fields in the message's order, so
      each of the last four lands one parameter away from its own. */
  function SettingsAsWritten(m: CreateTable): (s: TableSettings)
    ensures s.maxEntries == Settings(m).maxEntries
    ensures m.flags != m.userDataSizeBits ==> s.flags != Settings(m).flags
  {
    TableSettings(m.maxEntries, m.flags != 0, if m.userDataFixedSize then 1 else 0, m.userDataSize, m.userDataSizeBits)
  }

  /** Each field of the message at the parameter of the same name. */
  function Settings(m: CreateTable): TableSettings {
    TableSettings(m.maxEntries, m.userDataFixedSize, m.userDataSize, m.userDataSizeBits, m.flags)
  }

  /** The part of a table the decoder reads, for a table created with `s`. */
  function SettingsShape(s: TableSettings, entryBits: nat): TableShape {
    TableShape(s.flags, s.maxEntries, entryBits, s.userDataSize, s.userDataSizeBits)
  }

  /** As written, the flags a table is created with are the message's
      user_data_size_bits: a table the server marks with flag 2 and no string data
      is decoded anyway (and overruns the empty stream) instead of being skipped,
      which is what the table's own flags ask for. */
  lemma {:induction false} RotatedSettingsLoseSkipFlag(m: CreateTable, entryBits: nat)
    requires Has(m.flags, ST_SOMETHING) && !Has(m.userDataSizeBits, ST_SOMETHING) && m.stringData == []
    ensures DecodeUpdate(Complete, SettingsShape(SettingsAsWritten(m), entryBits), m.numEntries as nat, m.stringData, [])
            == Err(StreamOverrun)
    ensures DecodeUpdate(Complete, SettingsShape(Settings(m), entryBits), m.numEntries as nat, m.stringData, [])
            == Ok([])
  {
    var asWritten := SettingsShape(SettingsAsWritten(m), entryBits);
    assert asWritten.flags == m.userDataSizeBits;
    assert TakeBits(Open(m.stringData), 1) == Err(StreamOverrun);
  }

  /** Whether a handler decodes the entries of `name`: src/main.cpp leaves every
      table but the instance baseline alone. */
  predicate Decodes(variant: Variant, name: string) {
    variant.Complete? || name == INSTANCE_BASELINE_TABLE
  }

  /** handle_SVC_CreateStringTable: create the table the message describes, each
      setting at its own parameter, then decode its initial entries into it. */
  method HandleCreateStringTable(state: State, variant: Variant, m: CreateTable) returns (o: Outcome)
    modifies state
    ensures old(state.HasStringTable(m.name)) || m.maxEntries == 0 ==>
              o.Fail? && state.stringTables == old(state.stringTables)
    ensures !old(state.HasStringTable(m.name)) && m.maxEntries != 0 ==>
              && |state.stringTables| == |old(state.stringTables)| + 1
              && state.stringTables[..|old(state.stringTables)|] == old(state.stringTables)
              && var t := state.stringTables[|old(state.stringTables)|];
                 && t.name == m.name && t.userDataFixedSize == m.userDataFixedSize
                 && ShapeOf(t) == SettingsShape(Settings(m), t.entryBits)
                 && IsCeilLog2(m.maxEntries, t.entryBits)
                 && if !Decodes(variant, m.name) then o == Pass && t.entries == []
                    else match DecodeUpdate(variant, ShapeOf(t), m.numEntries as nat, m.stringData, [])
                         case Ok(e) => o == Pass && t.entries == e
                         case Err(e) => o == Fail(e)
    ensures state.classes == old(state.classes) && state.sendTables == old(state.sendTables)
  {
    var s := Settings(m);
    var created := state.CreateStringTable(m.name, s.maxEntries, s.userDataFixedSize, s.userDataSize,
                                           s.userDataSizeBits, s.flags);
    if created.Err? {
      return Fail(created.error);
    }
    var table := created.value;
    assert state.stringTables[|old(state.stringTables)|] == table;
    if !Decodes(variant, m.name) {
      return Pass;
    }
    o := UpdateStringTable(table, variant, m.numEntries as nat, m.stringData);
  }

  /** handle_SVC_UpdateStringTable: decode the changed entries into the table of
      that index; an index past the last table fails. No other table changes. */
  method HandleUpdateStringTable(state: State, variant: Variant, tableId: nat, numChanged: U32, data: Bytes)
    returns (o: Outcome)
    modifies state.stringTables
    ensures tableId >= |state.stringTables| ==> o == Fail(FormatViolation("Requested index out of bounds."))
    ensures tableId < |state.stringTables| ==>
              var t := state.stringTables[tableId];
              if !Decodes(variant, t.name) then o == Pass && t.entries == old(t.entries)
              else match DecodeUpdate(variant, ShapeOf(t), numChanged as nat, data, old(t.entries))
                   case Ok(e) => o == Pass && t.entries == e
                   case Err(e) => o == Fail(e)
    ensures forall u :: u in state.stringTables && (tableId >= |state.stringTables| || u != state.stringTables[tableId])
              ==> u.entries == old(u.entries)
  {
    var found := state.GetStringTable(tableId);
    if found.Err? {
      return Fail(found.error);
    }
    var table := found.value;
    if !Decodes(variant, table.name) {
      return Pass;
    }
    o := UpdateStringTable(table, variant, numChanged as nat, data);
  }
}
