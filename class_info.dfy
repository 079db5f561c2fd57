/** dump_DEM_ClassInfo (src/edith.cpp): creates the classes the message lists,
    ties every prop of every send table to its table and every array prop to
    the prop right before it (its element descriptor), then compiles the send
    tables. The table a prop lives in is a pointer in the source; here it is the
    table's name. */
module ClassInfo {
  import opened Wrappers
  import opened Bits
  import opened Schema
  import opened States
  import opened Compiler

  /** One entry of CDemoClassInfo: class id, send-table name, network name. */
  datatype ClassEntry = ClassEntry(classId: U32, tableName: string, networkName: string)

  /** The class create_class makes for an entry. */
  function ClassOf(e: ClassEntry): Class {
    Class(e.classId, e.tableName, e.networkName)
  }

  /** The classes of the entries, in message order. */
  function ClassesOf(info: seq<ClassEntry>): (cs: seq<Class>)
    ensures |cs| == |info| && forall i :: 0 <= i < |info| ==> cs[i] == ClassOf(info[i])
  {
    seq(|info|, i requires 0 <= i < |info| => ClassOf(info[i]))
  }

  // ---------------------------------------------------------- linking props

  /** The props of table `name` once linked: each records the table, and an array
      prop points at its predecessor, which it reads as the element descriptor;
      an array prop at index zero has none and fails. The predecessor is the
      linked one: in the source it is a pointer into the same table. */
  function LinkProps(name: string, props: seq<SendProp>): (r: Result<seq<SendProp>>)
    ensures r.Ok? ==> |r.value| == |props|
    decreases |props|
  {
    if |props| == 0 then Ok([])
    else
      var init :- LinkProps(name, props[..|props| - 1]);
      var p := props[|props| - 1].(inTable := name);
      if !p.kind.Array? then Ok(init + [p])
      else if |props| == 1 then Err(FormatViolation("Array prop is at index zero."))
      else Ok(init + [p.(arrayProp := Some(init[|init| - 1]))])
  }

  /** Linking fails exactly when the first prop is an array prop; otherwise each
      prop keeps everything but its table and, for an array prop, its element
      descriptor, which is the linked prop before it. */
  lemma {:induction false} LinkPropsMeaning(name: string, props: seq<SendProp>)
    ensures LinkProps(name, props).Err? <==> |props| > 0 && props[0].kind.Array?
    ensures LinkProps(name, props).Err? ==> LinkProps(name, props).error == FormatViolation("Array prop is at index zero.")
    ensures LinkProps(name, props).Ok? ==>
              var r := LinkProps(name, props).value;
              && |r| == |props|
              && (forall i :: 0 <= i < |r| ==> r[i].inTable == name)
              && (forall i :: 0 <= i < |r| && !props[i].kind.Array? ==> r[i] == props[i].(inTable := name))
              && (forall i :: 0 < i < |r| && props[i].kind.Array? ==>
                    r[i] == props[i].(inTable := name, arrayProp := Some(r[i - 1])))
    decreases |props|
  {
    if |props| > 0 {
      var init := props[..|props| - 1];
      LinkPropsMeaning(name, init);
      if |props| > 1 {
        assert init[0] == props[0];
      }
    }
  }

  /** An array prop's element descriptor is the prop before it, with its table. */
  lemma {:induction false} ArrayPropIsPredecessor(name: string, props: seq<SendProp>, i: nat)
    requires LinkProps(name, props).Ok? && 0 < i < |props| && props[i].kind.Array?
    ensures LinkProps(name, props).value[i].arrayProp.Some?
    ensures var e := LinkProps(name, props).value[i].arrayProp.value;
            e.kind == props[i - 1].kind && e.varName == props[i - 1].varName && e.inTable == name
  {
    LinkPropsMeaning(name, props);
    var r := LinkProps(name, props).value;
    if props[i - 1].kind.Array? {
      assert r[i - 1] == props[i - 1].(inTable := name, arrayProp := Some(r[i - 2]));
    }
  }

  /** Linking twice gives what linking once gave: a second DEM_ClassInfo leaves
      the send tables as the first left them. */
  lemma {:induction false} LinkPropsIdempotent(name: string, props: seq<SendProp>)
    requires LinkProps(name, props).Ok?
    ensures LinkProps(name, LinkProps(name, props).value) == LinkProps(name, props)
    decreases |props|
  {
    var r := LinkProps(name, props).value;
    if |props| > 0 {
      var init := props[..|props| - 1];
      LinkPropsIdempotent(name, init);
      var ri := LinkProps(name, init).value;
      assert r[..|r| - 1] == ri;
      if |props| > 1 {
        LinkPropsMeaning(name, init);
        assert ri[0].kind == props[0].kind;
      }
    }
  }

  /** The loop over one table's props, in place. */
  method LinkTableProps(name: string, props: seq<SendProp>) returns (r: Result<seq<SendProp>>)
    ensures r == LinkProps(name, props)
  {
    var linked: seq<SendProp> := [];
    var i := 0;
    while i < |props|
      invariant i <= |props| && LinkProps(name, props[..i]) == Ok(linked) && |linked| == i
    {
      assert props[..i + 1][..i] == props[..i];
      var prop := props[i].(inTable := name);
      if prop.kind.Array? {
        if i == 0 {
          LinkPropsMeaning(name, props);
          return Err(FormatViolation("Array prop is at index zero."));
        }
        prop := prop.(arrayProp := Some(linked[i - 1]));
      }
      linked := linked + [prop];
      i := i + 1;
    }
    assert props[..i] == props;
    r := Ok(linked);
  }

  /** A table with its props linked. */
  function LinkTable(t: SendTable): Result<SendTable> {
    var props :- LinkProps(t.name, t.props);
    Ok(t.(props := props))
  }

  /** Every table linked, in order; the first table that fails fails the lot. */
  function LinkTables(ts: seq<SendTable>): (r: Result<seq<SendTable>>)
    ensures r.Ok? ==> |r.value| == |ts|
    decreases |ts|
  {
    if |ts| == 0 then Ok([])
    else
      var init :- LinkTables(ts[..|ts| - 1]);
      var last :- LinkTable(ts[|ts| - 1]);
      Ok(init + [last])
  }

  /** Linking the tables succeeds exactly when every table links, and then each
      table is its own table linked. */
  lemma {:induction false} LinkTablesMeaning(ts: seq<SendTable>)
    ensures LinkTables(ts).Ok? <==> forall j :: 0 <= j < |ts| ==> LinkTable(ts[j]).Ok?
    ensures LinkTables(ts).Ok? ==> forall j :: 0 <= j < |ts| ==> LinkTable(ts[j]) == Ok(LinkTables(ts).value[j])
    decreases |ts|
  {
    if |ts| > 0 {
      var init := ts[..|ts| - 1];
      LinkTablesMeaning(init);
      assert forall j :: 0 <= j < |init| ==> init[j] == ts[j];
    }
  }

  /** The first table that fails to link decides the error. */
  lemma {:induction false} LinkTablesFirstError(ts: seq<SendTable>, k: nat, m: nat)
    requires k < m <= |ts| && LinkTables(ts[..k]).Ok? && LinkTable(ts[k]).Err?
    ensures LinkTables(ts[..m]) == Err(LinkTable(ts[k]).error)
    decreases m
  {
    var prefix := ts[..m];
    assert prefix[..m - 1] == ts[..m - 1];
    if m > k + 1 {
      LinkTablesFirstError(ts, k, m - 1);
    } else {
      assert prefix[m - 1] == ts[k];
    }
  }

  /** Linking keeps each table's name and decoder flag and the number and order of
      its props, so the names compile_send_tables looks tables up by still find
      them. */
  lemma {:induction false} LinkTablesKeepsNames(ts: seq<SendTable>)
    requires LinkTables(ts).Ok?
    ensures forall j :: 0 <= j < |ts| ==>
              && LinkTables(ts).value[j].name == ts[j].name
              && LinkTables(ts).value[j].needsDecoder == ts[j].needsDecoder
              && |LinkTables(ts).value[j].props| == |ts[j].props|
  {
    LinkTablesMeaning(ts);
    forall j | 0 <= j < |ts|
      ensures LinkTables(ts).value[j].name == ts[j].name
      ensures LinkTables(ts).value[j].needsDecoder == ts[j].needsDecoder
      ensures |LinkTables(ts).value[j].props| == |ts[j].props|
    {
      LinkPropsMeaning(ts[j].name, ts[j].props);
    }
  }

  /** The loop over the send tables, each relinked in place. */
  method LinkSendTables(state: State) returns (o: Outcome)
    modifies state
    ensures match LinkTables(old(state.sendTables))
            case Ok(ts) => o == Pass && state.sendTables == ts
            case Err(e) => o == Fail(e)
    ensures state.classes == old(state.classes) && state.flatSendTables == old(state.flatSendTables)
    ensures state.stringTables == old(state.stringTables)
  {
    ghost var tables := state.sendTables;
    var k := 0;
    while k < |state.sendTables|
      invariant k <= |tables| == |state.sendTables|
      invariant state.classes == old(state.classes) && state.flatSendTables == old(state.flatSendTables)
      invariant state.stringTables == old(state.stringTables)
      invariant forall j :: k <= j < |tables| ==> state.sendTables[j] == tables[j]
      invariant LinkTables(tables[..k]) == Ok(state.sendTables[..k])
    {
      var table := state.sendTables[k];
      var props := LinkTableProps(table.name, table.props);
      assert tables[..k + 1][..k] == tables[..k];
      assert table == tables[k];
      if props.Err? {
        LinkTablesFirstError(tables, k, |tables|);
        assert tables[..|tables|] == tables;
        return Fail(props.error);
      }
      ghost var before := state.sendTables;
      state.sendTables := state.sendTables[k := table.(props := props.value)];
      assert state.sendTables[..k + 1] == before[..k] + [table.(props := props.value)];
      k := k + 1;
    }
    assert tables[..k] == tables;
    assert state.sendTables[..k] == state.sendTables;
    o := Pass;
  }

  /** dump_DEM_ClassInfo: the classes are appended in message order; then the send
      tables are linked (failing on an array prop at index zero) and compiled. */
  method DumpClassInfo(state: State, info: seq<ClassEntry>) returns (o: Outcome)
    modifies state
    ensures state.classes == old(state.classes) + ClassesOf(info)
    ensures state.stringTables == old(state.stringTables)
    ensures match LinkTables(old(state.sendTables))
            case Err(e) => o == Fail(e)
            case Ok(ts) =>
              && state.sendTables == ts
              && (o.Pass? <==> forall j :: 0 <= j < |ts| ==> Hierarchy(ts, ts[j]).Ok?)
              && (o.Pass? ==> exists compiled :: && state.flatSendTables == old(state.flatSendTables) + compiled
                                                 && |compiled| == |ts| && AllCompiled(ts, compiled))
  {
    var i := 0;
    while i < |info|
      invariant i <= |info|
      invariant state.classes == old(state.classes) + ClassesOf(info[..i])
      invariant state.sendTables == old(state.sendTables) && state.flatSendTables == old(state.flatSendTables)
      invariant state.stringTables == old(state.stringTables)
    {
      var entry := info[i];
      var c := state.CreateClass(entry.classId, entry.tableName, entry.networkName);
      assert ClassesOf(info[..i + 1]) == ClassesOf(info[..i]) + [c];
      i := i + 1;
    }
    assert info[..i] == info;
    o := LinkSendTables(state);
    if o.Fail? {
      return;
    }
    o := state.CompileSendTables();
  }
}
