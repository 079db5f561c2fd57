/** Send-table compilation (src/state.cpp:186-293): collecting the excluded props,
    flattening the table hierarchy, and ordering the flattened props by priority.

    The recursive walks thread the compile state (`excluding`, the flattened props)
    through as values. Their recursion is bounded by `fuel`: a table nested more
    deeply than there are tables must repeat a table, and is reported as an error. */
module Compiler {
  import opened Wrappers
  import opened Bits
  import opened Schema
  import opened Dictionaries

  /** `send_tables[name]`: the table added last under that name. */
  function TableNamed(tables: seq<SendTable>, name: string): Result<SendTable> {
    Find(tables, TableName, name)
  }

  /** The names an Exclude prop removes: its `dt_name` followed by its `var_name`. */
  function ExcludeName(p: SendProp): string {
    p.dtName + p.varName
  }

  function ExcludedIn(props: seq<SendProp>): set<string> {
    set p | p in props && Has(p.flags, EXCLUDE) :: ExcludeName(p)
  }

  function ExcludedAnywhere(tables: seq<SendTable>): set<string> {
    set t, p | t in tables && p in t.props && Has(p.flags, EXCLUDE) :: ExcludeName(p)
  }

  lemma {:induction false} ExcludedInSplit(props: seq<SendProp>)
    requires |props| > 0
    ensures ExcludedIn(props) == (if Has(props[0].flags, EXCLUDE) then {ExcludeName(props[0])} else {}) + ExcludedIn(props[1..])
  {
    assert forall p :: p in props <==> p == props[0] || p in props[1..];
  }

  lemma {:induction false} NestedExcluded(tables: seq<SendTable>, name: string)
    requires TableNamed(tables, name).Ok?
    ensures ExcludedIn(TableNamed(tables, name).value.props) <= ExcludedAnywhere(tables)
  {
    var t := TableNamed(tables, name).value;
    assert t in tables;
  }

  /** gather_excludes: adds the name of every Exclude prop of the table, and of the
      tables its non-excluded DataTable props name, to `excluding`. The result holds
      every Exclude prop of the table itself, and nothing that is not an Exclude prop
      of the table or of some known table. */
  function GatherExcludes(tables: seq<SendTable>, props: seq<SendProp>, fuel: nat, excluding: set<string>): (r: Result<set<string>>)
    decreases fuel, |props|
    ensures r.Ok? ==> excluding + ExcludedIn(props) <= r.value
    ensures r.Ok? ==> r.value <= excluding + ExcludedIn(props) + ExcludedAnywhere(tables)
  {
    if |props| == 0 then Ok(excluding)
    else
      var prop := props[0];
      ExcludedInSplit(props);
      if Has(prop.flags, EXCLUDE) then
        GatherExcludes(tables, props[1..], fuel, excluding + {ExcludeName(prop)})
      else if prop.kind == DataTable then
        if fuel == 0 then Err(UnsupportedFeature("send tables nested too deeply"))
        else
          var nested :- TableNamed(tables, prop.dtName);
          NestedExcluded(tables, prop.dtName);
          var inner :- GatherExcludes(tables, nested.props, fuel - 1, excluding);
          GatherExcludes(tables, props[1..], fuel, inner)
      else GatherExcludes(tables, props[1..], fuel, excluding)
  }

  /** A non-excluded DataTable prop naming no known table makes the walk fail, as
      `send_tables[...]` throws. */
  lemma {:induction false} UnknownTableFails(tables: seq<SendTable>, props: seq<SendProp>, fuel: nat, excluding: set<string>, i: nat)
    requires i < |props| && !Has(props[i].flags, EXCLUDE) && props[i].kind == DataTable
    requires TableNamed(tables, props[i].dtName).Err?
    ensures GatherExcludes(tables, props, fuel, excluding).Err?
    decreases fuel, |props|
  {
    if i > 0 {
      var prop := props[0];
      assert props[1..][i - 1] == props[i];
      if Has(prop.flags, EXCLUDE) {
        UnknownTableFails(tables, props[1..], fuel, excluding + {ExcludeName(prop)}, i - 1);
      } else if prop.kind == DataTable {
        if fuel > 0 && TableNamed(tables, prop.dtName).Ok? {
          var inner := GatherExcludes(tables, TableNamed(tables, prop.dtName).value.props, fuel - 1, excluding);
          if inner.Ok? {
            UnknownTableFails(tables, props[1..], fuel, inner.value, i - 1);
          }
        }
      } else {
        UnknownTableFails(tables, props[1..], fuel, excluding, i - 1);
      }
    }
  }

  /** A prop gather_excludes walks into: a DataTable prop not itself flagged Exclude. */
  predicate Descends(p: SendProp) {
    !Has(p.flags, EXCLUDE) && p.kind == DataTable
  }

  /** What gather_excludes collects below a descending prop, starting from nothing:
      the walk of the table the prop names, one nesting level further down. */
  function NestedExcludes(tables: seq<SendTable>, p: SendProp, fuel: nat): Result<set<string>> {
    if fuel == 0 then Err(UnsupportedFeature("send tables nested too deeply"))
    else
      var nested :- TableNamed(tables, p.dtName);
      GatherExcludes(tables, nested.props, fuel - 1, {})
  }

  /** gather_excludes only inserts into the set it is handed: the walk from
      `excluding` succeeds exactly when the walk from nothing does, and collects
      `excluding` plus what that walk collects. */
  lemma {:induction false} ExcludesShift(tables: seq<SendTable>, props: seq<SendProp>, fuel: nat, excluding: set<string>)
    ensures GatherExcludes(tables, props, fuel, excluding).Ok? == GatherExcludes(tables, props, fuel, {}).Ok?
    ensures GatherExcludes(tables, props, fuel, excluding).Ok? ==>
              GatherExcludes(tables, props, fuel, excluding).value == excluding + GatherExcludes(tables, props, fuel, {}).value
    decreases fuel, |props|
  {
    if |props| > 0 {
      var prop := props[0];
      if Has(prop.flags, EXCLUDE) {
        ExcludesShift(tables, props[1..], fuel, excluding + {ExcludeName(prop)});
        ExcludesShift(tables, props[1..], fuel, {} + {ExcludeName(prop)});
      } else if prop.kind == DataTable {
        if fuel > 0 && TableNamed(tables, prop.dtName).Ok? {
          var nested := TableNamed(tables, prop.dtName).value;
          ExcludesShift(tables, nested.props, fuel - 1, excluding);
          var inner := GatherExcludes(tables, nested.props, fuel - 1, {});
          if inner.Ok? {
            ExcludesShift(tables, props[1..], fuel, excluding + inner.value);
            ExcludesShift(tables, props[1..], fuel, inner.value);
          }
        }
      } else {
        ExcludesShift(tables, props[1..], fuel, excluding);
      }
    }
  }

  /** The walk past the first prop: what gather_excludes continues with over the
      rest of the props, or the failure of the first prop's own walk. */
  lemma {:induction false} ExcludesStep(tables: seq<SendTable>, props: seq<SendProp>, fuel: nat, excluding: set<string>)
    requires |props| > 0
    ensures !Descends(props[0]) ==>
              GatherExcludes(tables, props, fuel, excluding)
              == GatherExcludes(tables, props[1..], fuel, excluding + (if Has(props[0].flags, EXCLUDE) then {ExcludeName(props[0])} else {}))
    ensures Descends(props[0]) ==>
              (GatherExcludes(tables, props, fuel, excluding).Ok? ==> NestedExcludes(tables, props[0], fuel).Ok?)
    ensures Descends(props[0]) && NestedExcludes(tables, props[0], fuel).Ok? ==>
              GatherExcludes(tables, props, fuel, excluding)
              == GatherExcludes(tables, props[1..], fuel, excluding + NestedExcludes(tables, props[0], fuel).value)
  {
    var prop := props[0];
    if Has(prop.flags, EXCLUDE) {
    } else if prop.kind == DataTable {
      if fuel > 0 && TableNamed(tables, prop.dtName).Ok? {
        ExcludesShift(tables, TableNamed(tables, prop.dtName).value.props, fuel - 1, excluding);
      }
    } else {
      assert excluding + {} == excluding;
    }
  }

  /** gather_excludes succeeds exactly when every descending prop names a known
      table whose own walk succeeds. */
  lemma {:induction false} ExcludesSucceed(tables: seq<SendTable>, props: seq<SendProp>, fuel: nat, excluding: set<string>)
    ensures GatherExcludes(tables, props, fuel, excluding).Ok? <==>
              forall i | 0 <= i < |props| && Descends(props[i]) :: NestedExcludes(tables, props[i], fuel).Ok?
    decreases |props|
  {
    if |props| > 0 {
      ExcludesStep(tables, props, fuel, excluding);
      assert forall i | 1 <= i < |props| :: props[1..][i - 1] == props[i];
      var prop := props[0];
      if !Descends(prop) {
        ExcludesSucceed(tables, props[1..], fuel, excluding + (if Has(prop.flags, EXCLUDE) then {ExcludeName(prop)} else {}));
      } else if NestedExcludes(tables, prop, fuel).Ok? {
        ExcludesSucceed(tables, props[1..], fuel, excluding + NestedExcludes(tables, prop, fuel).value);
      }
    }
  }

  /** Everything collected below a descending prop ends up in the result. */
  lemma {:induction false} ExcludesCollectNested(tables: seq<SendTable>, props: seq<SendProp>, fuel: nat, excluding: set<string>)
    requires GatherExcludes(tables, props, fuel, excluding).Ok?
    ensures forall i | 0 <= i < |props| && Descends(props[i]) ::
              NestedExcludes(tables, props[i], fuel).Ok?
              && NestedExcludes(tables, props[i], fuel).value <= GatherExcludes(tables, props, fuel, excluding).value
    decreases |props|
  {
    if |props| > 0 {
      ExcludesStep(tables, props, fuel, excluding);
      assert forall i | 1 <= i < |props| :: props[1..][i - 1] == props[i];
      var prop := props[0];
      if !Descends(prop) {
        ExcludesCollectNested(tables, props[1..], fuel, excluding + (if Has(prop.flags, EXCLUDE) then {ExcludeName(prop)} else {}));
      } else {
        ExcludesCollectNested(tables, props[1..], fuel, excluding + NestedExcludes(tables, prop, fuel).value);
      }
    }
  }

  /** The result holds nothing but what the walk was handed, the table's own
      Exclude names and what was collected below some descending prop. */
  lemma {:induction false} ExcludesCollectOnly(tables: seq<SendTable>, props: seq<SendProp>, fuel: nat, excluding: set<string>)
    requires GatherExcludes(tables, props, fuel, excluding).Ok?
    ensures forall x | x in GatherExcludes(tables, props, fuel, excluding).value ::
              || x in excluding || x in ExcludedIn(props)
              || exists i :: 0 <= i < |props| && Descends(props[i]) && NestedExcludes(tables, props[i], fuel).Ok?
                              && x in NestedExcludes(tables, props[i], fuel).value
    decreases |props|
  {
    if |props| > 0 {
      ExcludesStep(tables, props, fuel, excluding);
      ExcludedInSplit(props);
      assert forall i | 1 <= i < |props| :: props[1..][i - 1] == props[i];
      var prop := props[0];
      if !Descends(prop) {
        ExcludesCollectOnly(tables, props[1..], fuel, excluding + (if Has(prop.flags, EXCLUDE) then {ExcludeName(prop)} else {}));
      } else {
        ExcludesCollectOnly(tables, props[1..], fuel, excluding + NestedExcludes(tables, prop, fuel).value);
      }
    }
  }

  /** A DataTable prop flagged Exclude is not walked into: when every DataTable
      prop of the table is flagged so, the walk collects exactly the table's own
      Exclude names, whatever the tables those props name. */
  lemma {:induction false} ExcludedTablesNotDescended(tables: seq<SendTable>, props: seq<SendProp>, fuel: nat, excluding: set<string>)
    requires forall i | 0 <= i < |props| :: props[i].kind == DataTable ==> Has(props[i].flags, EXCLUDE)
    ensures GatherExcludes(tables, props, fuel, excluding) == Ok(excluding + ExcludedIn(props))
    decreases |props|
  {
    if |props| > 0 {
      var prop := props[0];
      ExcludedInSplit(props);
      assert forall i | 1 <= i < |props| :: props[1..][i - 1] == props[i];
      ExcludesStep(tables, props, fuel, excluding);
      var added := if Has(prop.flags, EXCLUDE) then {ExcludeName(prop)} else {};
      ExcludedTablesNotDescended(tables, props[1..], fuel, excluding + added);
      assert excluding + added + ExcludedIn(props[1..]) == excluding + ExcludedIn(props);
    } else {
      assert excluding + ExcludedIn(props) == excluding;
    }
  }

  /** A prop that ends up in a flattened table: not inside an array, not a DataTable. */
  predicate Leaf(p: SendProp) {
    !Has(p.flags, INSIDE_ARRAY) && p.kind != DataTable
  }

  predicate LeavesFrom(s: seq<SendProp>, lo: nat) {
    forall i :: lo <= i < |s| ==> Leaf(s[i])
  }

  /** `p` is a prop of the table named `name` with props `props` that the
      flattening does not skip for exclusion: its name, prefixed with the table's,
      is not excluded. */
  predicate FromTable(name: string, props: seq<SendProp>, excluding: set<string>, p: SendProp) {
    p in props && name + p.varName !in excluding
  }

  /** Where a flattened prop may come from: the table being walked, or some
      known table, and in either case not excluded there. */
  predicate Origin(tables: seq<SendTable>, name: string, props: seq<SendProp>, excluding: set<string>, p: SendProp) {
    FromTable(name, props, excluding, p) || exists t :: t in tables && FromTable(t.name, t.props, excluding, p)
  }

  predicate OriginsFrom(tables: seq<SendTable>, name: string, props: seq<SendProp>, excluding: set<string>,
                        s: seq<SendProp>, lo: nat) {
    forall i :: lo <= i < |s| ==> Origin(tables, name, props, excluding, s[i])
  }

  /** The compile state of one `DTProp` level: its own props (`non_dt_props`) and the
      flattened props so far (`state.props`). */
  datatype Gathered = Gathered(own: seq<SendProp>, flat: seq<SendProp>)

  /** gather: walks the props of the table named `fromName` in order. Both lists
      only grow, and only by leaves that come, unexcluded, from this table or a
      known one; every unexcluded leaf of this table joins the own props. */
  function Gather(tables: seq<SendTable>, fromName: string, props: seq<SendProp>, fuel: nat,
                  excluding: set<string>, acc: Gathered): (r: Result<Gathered>)
    decreases fuel, 1, |props|
    ensures r.Ok? ==> acc.own <= r.value.own && LeavesFrom(r.value.own, |acc.own|)
    ensures r.Ok? ==> acc.flat <= r.value.flat && LeavesFrom(r.value.flat, |acc.flat|)
    ensures r.Ok? ==> && OriginsFrom(tables, fromName, props, excluding, r.value.own, |acc.own|)
                      && OriginsFrom(tables, fromName, props, excluding, r.value.flat, |acc.flat|)
    ensures r.Ok? ==> forall i | 0 <= i < |props| && Leaf(props[i]) && FromTable(fromName, props, excluding, props[i]) ::
                        props[i] in r.value.own
  {
    if |props| == 0 then Ok(acc)
    else
      var next :- GatherProp(tables, fromName, props[0], fuel, excluding, acc);
      var r := Gather(tables, fromName, props[1..], fuel, excluding, next);
      GatherCarries(tables, fromName, props, excluding, acc, next, r);
      r
  }

  /** How the first prop's step and the walk of the rest make up gather's contract. */
  lemma {:induction false} GatherCarries(tables: seq<SendTable>, fromName: string, props: seq<SendProp>,
                                         excluding: set<string>, acc: Gathered, next: Gathered, r: Result<Gathered>)
    requires |props| > 0
    requires acc.own <= next.own && acc.flat <= next.flat
    requires OriginsFrom(tables, fromName, [props[0]], excluding, next.own, |acc.own|)
    requires OriginsFrom(tables, fromName, [props[0]], excluding, next.flat, |acc.flat|)
    requires Leaf(props[0]) && fromName + props[0].varName !in excluding ==> props[0] in next.own
    requires r.Ok? ==> next.own <= r.value.own && next.flat <= r.value.flat
    requires r.Ok? ==> && OriginsFrom(tables, fromName, props[1..], excluding, r.value.own, |next.own|)
                       && OriginsFrom(tables, fromName, props[1..], excluding, r.value.flat, |next.flat|)
    requires r.Ok? ==> forall i | 0 <= i < |props[1..]| && Leaf(props[1..][i]) && FromTable(fromName, props[1..], excluding, props[1..][i]) ::
                         props[1..][i] in r.value.own
    ensures r.Ok? ==> && OriginsFrom(tables, fromName, props, excluding, r.value.own, |acc.own|)
                      && OriginsFrom(tables, fromName, props, excluding, r.value.flat, |acc.flat|)
    ensures r.Ok? ==> forall i | 0 <= i < |props| && Leaf(props[i]) && FromTable(fromName, props, excluding, props[i]) ::
                        props[i] in r.value.own
  {
    if r.Ok? {
      assert forall p | p in props[1..] :: p in props;
      assert forall p | p in [props[0]] :: p in props;
      forall i | |acc.own| <= i < |r.value.own|
        ensures Origin(tables, fromName, props, excluding, r.value.own[i])
      {
        if i < |next.own| {
          assert r.value.own[i] == next.own[i];
        }
      }
      forall i | |acc.flat| <= i < |r.value.flat|
        ensures Origin(tables, fromName, props, excluding, r.value.flat[i])
      {
        if i < |next.flat| {
          assert r.value.flat[i] == next.flat[i];
        }
      }
      forall i | 0 <= i < |props| && Leaf(props[i]) && FromTable(fromName, props, excluding, props[i])
        ensures props[i] in r.value.own
      {
        if i == 0 {
          var k :| 0 <= k < |next.own| && next.own[k] == props[0];
          assert r.value.own[k] == props[0];
        } else {
          assert props[1..][i - 1] == props[i];
        }
      }
    }
  }

  /** The body of gather's loop for one prop: skip it when inside an array or
      excluded; splice a collapsible DataTable into this level; build any other
      DataTable as a nested level, which leaves this level's own props alone; keep
      anything else as an own prop. */
  function GatherProp(tables: seq<SendTable>, fromName: string, prop: SendProp, fuel: nat,
                      excluding: set<string>, acc: Gathered): (r: Result<Gathered>)
    decreases fuel, 1, 0
    ensures r.Ok? ==> acc.own <= r.value.own && LeavesFrom(r.value.own, |acc.own|)
    ensures r.Ok? ==> acc.flat <= r.value.flat && LeavesFrom(r.value.flat, |acc.flat|)
    ensures r.Ok? ==> && OriginsFrom(tables, fromName, [prop], excluding, r.value.own, |acc.own|)
                      && OriginsFrom(tables, fromName, [prop], excluding, r.value.flat, |acc.flat|)
    ensures Has(prop.flags, INSIDE_ARRAY) || fromName + prop.varName in excluding ==> r == Ok(acc)
    ensures Leaf(prop) && fromName + prop.varName !in excluding ==> r == Ok(acc.(own := acc.own + [prop]))
    ensures r.Ok? && prop.kind == DataTable && !Has(prop.flags, COLLAPSIBLE) ==> r.value.own == acc.own
  {
    if Has(prop.flags, INSIDE_ARRAY) || fromName + prop.varName in excluding then Ok(acc)
    else if prop.kind == DataTable then
      if fuel == 0 then Err(UnsupportedFeature("send tables nested too deeply"))
      else
        var nested :- TableNamed(tables, prop.dtName);
        assert nested in tables;
        if Has(prop.flags, COLLAPSIBLE) then
          Gather(tables, nested.name, nested.props, fuel - 1, excluding, acc)
        else
          var flat :- BuildHierarchy(tables, nested, fuel - 1, excluding, acc.flat);
          Ok(acc.(flat := flat))
    else Ok(acc.(own := acc.own + [prop]))
  }

  /** build_hierarchy: gathers the table, then appends its own props after everything
      its nested tables appended. What it appends are leaves that come, unexcluded,
      from this table or a known one, and every unexcluded leaf of this table is
      among them. */
  function BuildHierarchy(tables: seq<SendTable>, table: SendTable, fuel: nat,
                          excluding: set<string>, flat: seq<SendProp>): (r: Result<seq<SendProp>>)
    decreases fuel, 2, 0
    ensures r.Ok? ==> flat <= r.value && LeavesFrom(r.value, |flat|)
    ensures r.Ok? ==> OriginsFrom(tables, table.name, table.props, excluding, r.value, |flat|)
    ensures r.Ok? ==> forall p | p in table.props && Leaf(p) && table.name + p.varName !in excluding :: p in r.value
  {
    var gathered :- Gather(tables, table.name, table.props, fuel, excluding, Gathered([], flat));
    assert forall p | p in table.props && Leaf(p) && table.name + p.varName !in excluding :: p in gathered.own;
    Ok(gathered.flat + gathered.own)
  }

  /** The own props gather keeps from `props` when none of them is a DataTable. */
  function Kept(fromName: string, props: seq<SendProp>, excluding: set<string>): seq<SendProp> {
    if |props| == 0 then []
    else KeptProp(fromName, props[0], excluding) + Kept(fromName, props[1..], excluding)
  }

  function KeptProp(fromName: string, prop: SendProp, excluding: set<string>): seq<SendProp> {
    if Leaf(prop) && fromName + prop.varName !in excluding then [prop] else []
  }

  lemma {:induction false} GatherPropOwn(tables: seq<SendTable>, fromName: string, prop: SendProp, fuel: nat,
                      excluding: set<string>, acc: Gathered)
    requires !(prop.kind == DataTable && Has(prop.flags, COLLAPSIBLE))
    requires GatherProp(tables, fromName, prop, fuel, excluding, acc).Ok?
    ensures GatherProp(tables, fromName, prop, fuel, excluding, acc).value.own == acc.own + KeptProp(fromName, prop, excluding)
  {
    if KeptProp(fromName, prop, excluding) == [] {
      assert acc.own + [] == acc.own;
    }
  }

  lemma {:induction false} GatherPropLeaf(tables: seq<SendTable>, fromName: string, prop: SendProp, fuel: nat,
                       excluding: set<string>, acc: Gathered)
    requires prop.kind != DataTable
    ensures GatherProp(tables, fromName, prop, fuel, excluding, acc)
            == Ok(acc.(own := acc.own + KeptProp(fromName, prop, excluding)))
  {
    if KeptProp(fromName, prop, excluding) == [] {
      assert acc.own + [] == acc.own;
    }
  }

  /** Without collapsible DataTables, a level's own props are exactly the kept leaves
      of its table, in table order. */
  lemma {:induction false} GatherOwn(tables: seq<SendTable>, fromName: string, props: seq<SendProp>, fuel: nat,
                                     excluding: set<string>, acc: Gathered, kept: seq<SendProp>)
    requires forall i :: 0 <= i < |props| ==> !(props[i].kind == DataTable && Has(props[i].flags, COLLAPSIBLE))
    requires kept == Kept(fromName, props, excluding)
    requires Gather(tables, fromName, props, fuel, excluding, acc).Ok?
    ensures Gather(tables, fromName, props, fuel, excluding, acc).value.own == acc.own + kept
  {
    if |props| == 0 {
      assert acc.own + kept == acc.own;
    } else {
      var first := KeptProp(fromName, props[0], excluding);
      var rest := Kept(fromName, props[1..], excluding);
      var next := GatherStep(tables, fromName, props, fuel, excluding, acc);
      GatherPropOwn(tables, fromName, props[0], fuel, excluding, acc);
      GatherOwn(tables, fromName, props[1..], fuel, excluding, next, rest);
      AppendAssociates(acc.own, first, rest);
    }
  }

  /** Gather takes its first prop, then goes on with the rest from what that gave. */
  lemma {:induction false} GatherStep(tables: seq<SendTable>, fromName: string, props: seq<SendProp>, fuel: nat,
                                      excluding: set<string>, acc: Gathered) returns (next: Gathered)
    requires |props| > 0 && Gather(tables, fromName, props, fuel, excluding, acc).Ok?
    ensures GatherProp(tables, fromName, props[0], fuel, excluding, acc) == Ok(next)
    ensures Gather(tables, fromName, props, fuel, excluding, acc) == Gather(tables, fromName, props[1..], fuel, excluding, next)
  {
    next := GatherProp(tables, fromName, props[0], fuel, excluding, acc).value;
  }

  lemma AppendAssociates<T>(a: seq<T>, b: seq<T>, c: seq<T>)
    ensures a + b + c == a + (b + c)
  {
  }

  /** A table with no DataTable props flattens to exactly its kept props, appended
      in table order. */
  lemma {:induction false} GatherLeaves(tables: seq<SendTable>, fromName: string, props: seq<SendProp>, fuel: nat,
                                        excluding: set<string>, acc: Gathered, kept: seq<SendProp>)
    requires forall i :: 0 <= i < |props| ==> props[i].kind != DataTable
    requires kept == Kept(fromName, props, excluding)
    ensures Gather(tables, fromName, props, fuel, excluding, acc) == Ok(Gathered(acc.own + kept, acc.flat))
  {
    if |props| == 0 {
      assert acc.own + kept == acc.own;
    } else {
      var first := KeptProp(fromName, props[0], excluding);
      var rest := Kept(fromName, props[1..], excluding);
      var next := acc.(own := acc.own + first);
      GatherPropLeaf(tables, fromName, props[0], fuel, excluding, acc);
      GatherLeaves(tables, fromName, props[1..], fuel, excluding, next, rest);
      AppendAssociates(acc.own, first, rest);
    }
  }

  /** build_hierarchy puts a table's own props after all props of its nested
      (non-collapsible) tables. */
  lemma {:induction false} OwnPropsLast(tables: seq<SendTable>, table: SendTable, fuel: nat, excluding: set<string>, flat: seq<SendProp>)
    requires forall i :: 0 <= i < |table.props| ==> !(table.props[i].kind == DataTable && Has(table.props[i].flags, COLLAPSIBLE))
    requires BuildHierarchy(tables, table, fuel, excluding, flat).Ok?
    ensures var r := BuildHierarchy(tables, table, fuel, excluding, flat).value;
            var own := Kept(table.name, table.props, excluding);
            |own| <= |r| && r[|r| - |own|..] == own
  {
    GatherOwn(tables, table.name, table.props, fuel, excluding, Gathered([], flat), Kept(table.name, table.props, excluding));
  }

  /** A table without DataTable props flattens to the flattened props so far followed
      by its kept props. */
  lemma {:induction false} LeafTableFlattens(tables: seq<SendTable>, table: SendTable, fuel: nat, excluding: set<string>, flat: seq<SendProp>)
    requires forall i :: 0 <= i < |table.props| ==> table.props[i].kind != DataTable
    ensures BuildHierarchy(tables, table, fuel, excluding, flat) == Ok(flat + Kept(table.name, table.props, excluding))
  {
    GatherLeaves(tables, table.name, table.props, fuel, excluding, Gathered([], flat), Kept(table.name, table.props, excluding));
    assert [] + Kept(table.name, table.props, excluding) == Kept(table.name, table.props, excluding);
  }

  /** The two parts of one level's flattening: what its nested (non-collapsible)
      levels append to the flattened props, and the level's own props, which
      take in every collapsible table spliced into it. */
  datatype Split = Split(nested: seq<SendProp>, own: seq<SendProp>)

  /** A reference account of the flattening of a level, without gather's
      accumulators: each prop contributes its own part to the level's two parts,
      in table order. */
  function Levels(tables: seq<SendTable>, fromName: string, props: seq<SendProp>, fuel: nat,
                  excluding: set<string>): (r: Result<Split>)
    decreases fuel, 1, |props|
    ensures r.Ok? ==> LeavesFrom(r.value.nested, 0) && LeavesFrom(r.value.own, 0)
    ensures r.Ok? ==> forall i | 0 <= i < |props| && Leaf(props[i]) && fromName + props[i].varName !in excluding ::
                        props[i] in r.value.own
  {
    if |props| == 0 then Ok(Split([], []))
    else
      var first :- PropLevels(tables, fromName, props[0], fuel, excluding);
      var rest :- Levels(tables, fromName, props[1..], fuel, excluding);
      assert forall i | 1 <= i < |props| :: props[1..][i - 1] == props[i];
      Ok(Split(first.nested + rest.nested, first.own + rest.own))
  }

  /** One prop's part: nothing when skipped; a collapsible table's two parts as
      they are; a nested table's whole flattening, ahead of the level's own props;
      a leaf as an own prop. */
  function PropLevels(tables: seq<SendTable>, fromName: string, prop: SendProp, fuel: nat,
                      excluding: set<string>): (r: Result<Split>)
    decreases fuel, 1, 0
    ensures r.Ok? ==> LeavesFrom(r.value.nested, 0) && LeavesFrom(r.value.own, 0)
    ensures r.Ok? && prop.kind == DataTable && !Has(prop.flags, COLLAPSIBLE) ==> r.value.own == []
    ensures Leaf(prop) && fromName + prop.varName !in excluding ==> r == Ok(Split([], [prop]))
  {
    if Has(prop.flags, INSIDE_ARRAY) || fromName + prop.varName in excluding then Ok(Split([], []))
    else if prop.kind == DataTable then
      if fuel == 0 then Err(UnsupportedFeature("send tables nested too deeply"))
      else
        var nested :- TableNamed(tables, prop.dtName);
        var inner :- Levels(tables, nested.name, nested.props, fuel - 1, excluding);
        if Has(prop.flags, COLLAPSIBLE) then Ok(inner)
        else Ok(Split(inner.nested + inner.own, []))
    else Ok(Split([], [prop]))
  }

  /** gather's accumulators after a level whose parts are `s`. */
  function Threaded(s: Result<Split>, acc: Gathered): Result<Gathered> {
    match s
    case Ok(v) => Ok(Gathered(acc.own + v.own, acc.flat + v.nested))
    case Err(e) => Err(e)
  }

  /** gather adds exactly a level's two parts to its accumulators, and fails
      exactly as the reference account does. */
  lemma {:induction false} GatherIsLevels(tables: seq<SendTable>, fromName: string, props: seq<SendProp>, fuel: nat,
                                          excluding: set<string>, acc: Gathered)
    decreases fuel, 1, |props|
    ensures Gather(tables, fromName, props, fuel, excluding, acc) == Threaded(Levels(tables, fromName, props, fuel, excluding), acc)
  {
    if |props| == 0 {
      assert acc.own + [] == acc.own && acc.flat + [] == acc.flat;
    } else {
      GatherPropIsLevels(tables, fromName, props[0], fuel, excluding, acc);
      var first := PropLevels(tables, fromName, props[0], fuel, excluding);
      if first.Ok? {
        var next := Gathered(acc.own + first.value.own, acc.flat + first.value.nested);
        GatherIsLevels(tables, fromName, props[1..], fuel, excluding, next);
        var rest := Levels(tables, fromName, props[1..], fuel, excluding);
        if rest.Ok? {
          AppendAssociates(acc.own, first.value.own, rest.value.own);
          AppendAssociates(acc.flat, first.value.nested, rest.value.nested);
        }
      }
    }
  }

  lemma {:induction false} GatherPropIsLevels(tables: seq<SendTable>, fromName: string, prop: SendProp, fuel: nat,
                                              excluding: set<string>, acc: Gathered)
    decreases fuel, 1, 0
    ensures GatherProp(tables, fromName, prop, fuel, excluding, acc) == Threaded(PropLevels(tables, fromName, prop, fuel, excluding), acc)
  {
    if Has(prop.flags, INSIDE_ARRAY) || fromName + prop.varName in excluding {
      assert acc.own + [] == acc.own && acc.flat + [] == acc.flat;
    } else if prop.kind == DataTable {
      if fuel > 0 && TableNamed(tables, prop.dtName).Ok? {
        var nested := TableNamed(tables, prop.dtName).value;
        if Has(prop.flags, COLLAPSIBLE) {
          GatherIsLevels(tables, nested.name, nested.props, fuel - 1, excluding, acc);
        } else {
          BuildHierarchyIsLevels(tables, nested, fuel - 1, excluding, acc.flat);
          var inner := Levels(tables, nested.name, nested.props, fuel - 1, excluding);
          if inner.Ok? {
            assert acc.own + [] == acc.own;
            AppendAssociates(acc.flat, inner.value.nested, inner.value.own);
          }
        }
      }
    } else {
      assert acc.flat + [] == acc.flat;
    }
  }

  /** build_hierarchy is the flattened props so far, then what the nested levels
      append, then the level's own props; it fails exactly as the reference
      account does. */
  lemma {:induction false} BuildHierarchyIsLevels(tables: seq<SendTable>, table: SendTable, fuel: nat,
                                                  excluding: set<string>, flat: seq<SendProp>)
    decreases fuel, 2, 0
    ensures BuildHierarchy(tables, table, fuel, excluding, flat)
            == match Levels(tables, table.name, table.props, fuel, excluding)
               case Ok(s) => Ok(flat + s.nested + s.own)
               case Err(e) => Err(e)
  {
    GatherIsLevels(tables, table.name, table.props, fuel, excluding, Gathered([], flat));
    var s := Levels(tables, table.name, table.props, fuel, excluding);
    if s.Ok? {
      assert [] + s.value.own == s.value.own;
    }
  }

  /** The order build_hierarchy gives, for any table: the flattened props so far,
      then everything the nested (non-collapsible) levels appended, then the own
      props, among which lie every kept leaf of the table and, through
      LevelsSplice, every own prop of a collapsible table spliced into it. */
  lemma {:induction false} OwnPropsAfterNested(tables: seq<SendTable>, table: SendTable, fuel: nat,
                                               excluding: set<string>, flat: seq<SendProp>)
    requires BuildHierarchy(tables, table, fuel, excluding, flat).Ok?
    ensures Levels(tables, table.name, table.props, fuel, excluding).Ok?
    ensures var r := BuildHierarchy(tables, table, fuel, excluding, flat).value;
            var s := Levels(tables, table.name, table.props, fuel, excluding).value;
            && |flat| + |s.nested| <= |r|
            && r[..|flat| + |s.nested|] == flat + s.nested
            && r[|flat| + |s.nested|..] == s.own
    ensures var s := Levels(tables, table.name, table.props, fuel, excluding).value;
            forall p | p in table.props && Leaf(p) && table.name + p.varName !in excluding :: p in s.own
  {
    BuildHierarchyIsLevels(tables, table, fuel, excluding, flat);
    var s := Levels(tables, table.name, table.props, fuel, excluding).value;
    var r := flat + s.nested + s.own;
    assert r[..|flat| + |s.nested|] == flat + s.nested;
    assert r[|flat| + |s.nested|..] == s.own;
    forall p | p in table.props && Leaf(p) && table.name + p.varName !in excluding
      ensures p in s.own
    {
      var i :| 0 <= i < |table.props| && table.props[i] == p;
    }
  }

  /** Where a DataTable prop's table goes in its level: a collapsible table's own
      props join the level's own props, and the whole flattening of any other
      nested table joins what the nested levels append. */
  lemma {:induction false} LevelsSplice(tables: seq<SendTable>, fromName: string, props: seq<SendProp>, fuel: nat,
                                        excluding: set<string>, i: nat)
    requires Levels(tables, fromName, props, fuel, excluding).Ok?
    requires i < |props| && props[i].kind == DataTable
    requires !Has(props[i].flags, INSIDE_ARRAY) && fromName + props[i].varName !in excluding
    ensures fuel > 0 && TableNamed(tables, props[i].dtName).Ok?
    ensures var nested := TableNamed(tables, props[i].dtName).value;
            var inner := Levels(tables, nested.name, nested.props, fuel - 1, excluding);
            var s := Levels(tables, fromName, props, fuel, excluding).value;
            && inner.Ok?
            && (Has(props[i].flags, COLLAPSIBLE) ==> forall p | p in inner.value.own :: p in s.own)
            && (Has(props[i].flags, COLLAPSIBLE) ==> forall p | p in inner.value.nested :: p in s.nested)
            && (!Has(props[i].flags, COLLAPSIBLE) ==> forall p | p in inner.value.nested + inner.value.own :: p in s.nested)
    decreases |props|
  {
    var first := PropLevels(tables, fromName, props[0], fuel, excluding).value;
    var rest := Levels(tables, fromName, props[1..], fuel, excluding).value;
    if i > 0 {
      assert props[1..][i - 1] == props[i];
      LevelsSplice(tables, fromName, props[1..], fuel, excluding, i - 1);
    }
  }

  /** The props of a table after exclusion and flattening, before ordering: only
      leaves. */
  function Hierarchy(tables: seq<SendTable>, table: SendTable): (r: Result<seq<SendProp>>)
    ensures r.Ok? ==> forall p | p in r.value :: Leaf(p)
  {
    var excluding :- GatherExcludes(tables, table.props, |tables|, {});
    var flat := BuildHierarchy(tables, table, |tables|, excluding, []);
    assert flat.Ok? ==> LeavesFrom(flat.value, 0);
    flat
  }

  /** What flattening keeps: each prop comes from the table or a known table, and
      the table's exclusions do not name it there; every leaf of the table they
      do not name is kept. */
  lemma {:induction false} HierarchyKeeps(tables: seq<SendTable>, table: SendTable)
    requires Hierarchy(tables, table).Ok?
    ensures GatherExcludes(tables, table.props, |tables|, {}).Ok?
    ensures var excluding := GatherExcludes(tables, table.props, |tables|, {}).value;
            forall p | p in Hierarchy(tables, table).value :: Origin(tables, table.name, table.props, excluding, p)
    ensures var excluding := GatherExcludes(tables, table.props, |tables|, {}).value;
            forall p | p in table.props && Leaf(p) && table.name + p.varName !in excluding :: p in Hierarchy(tables, table).value
  {
    var excluding := GatherExcludes(tables, table.props, |tables|, {}).value;
    var flat := BuildHierarchy(tables, table, |tables|, excluding, []).value;
    assert OriginsFrom(tables, table.name, table.props, excluding, flat, 0);
  }

  /** A prop named by one of the table's own Exclude props, in the table the
      Exclude prop names, is never taken from that table. */
  lemma {:induction false} HierarchyDropsExcluded(tables: seq<SendTable>, table: SendTable, e: SendProp, t: SendTable, p: SendProp)
    requires GatherExcludes(tables, table.props, |tables|, {}).Ok?
    requires e in table.props && Has(e.flags, EXCLUDE)
    requires t.name == e.dtName && p.varName == e.varName
    ensures !FromTable(t.name, t.props, GatherExcludes(tables, table.props, |tables|, {}).value, p)
  {
    assert e in table.props;
    assert ExcludeName(e) in ExcludedIn(table.props);
  }

  /** The bucket a prop lands in: its priority, except that a ChangesOften prop of
      priority above 64 moves to bucket 64. */
  function Key(p: SendProp): (k: U32)
    ensures k <= p.priority
    ensures k != p.priority <==> Has(p.flags, CHANGES_OFTEN) && p.priority > 64
    ensures k != p.priority ==> k == 64
  {
    if Has(p.flags, CHANGES_OFTEN) && p.priority > 64 then 64 else p.priority
  }

  /** The swap test of the bucket pass for `bucket`. */
  predicate InBucket(p: SendProp, bucket: U32) {
    p.priority == bucket || (bucket == 64 && Has(p.flags, CHANGES_OFTEN))
  }

  /** Among props not placed in an earlier bucket, the pass for `bucket` takes
      exactly those whose Key is `bucket`. */
  lemma {:induction false} InBucketIsKey(p: SendProp, bucket: U32)
    requires Key(p) >= bucket
    ensures InBucket(p, bucket) <==> Key(p) == bucket
  {
  }

  predicate SortedByKey(s: seq<SendProp>) {
    forall i, j :: 0 <= i < j < |s| ==> Key(s[i]) <= Key(s[j])
  }

  predicate StrictlyIncreasing(s: seq<U32>) {
    forall i, j :: 0 <= i < j < |s| ==> s[i] < s[j]
  }

  /** A non-empty set of priorities has a least element. */
  lemma {:induction false} LeastOf(s: set<U32>) returns (m: U32)
    requires s != {}
    ensures m in s && forall x | x in s :: m <= x
    decreases |s|
  {
    var y :| y in s;
    var rest := s - {y};
    if rest == {} {
      m := y;
    } else {
      var r := LeastOf(rest);
      m := if y < r then y else r;
    }
    forall x | x in s
      ensures m <= x
    {
      if x != y {
        assert x in rest;
      }
    }
  }

  lemma {:induction false} LeastExists(s: set<U32>)
    requires s != {}
    ensures exists m :: m in s && forall x | x in s :: m <= x
  {
    var m := LeastOf(s);
  }

  function Least(s: set<U32>): (m: U32)
    requires s != {}
    ensures m in s && forall x | x in s :: m <= x
  {
    LeastExists(s);
    var m :| m in s && forall x | x in s :: m <= x; m
  }

  /** std::sort on a vector of distinct values: the values in ascending order. */
  function Ascending(s: set<U32>): (r: seq<U32>)
    ensures |r| == |s| && StrictlyIncreasing(r)
    ensures forall x :: x in r <==> x in s
    decreases |s|
  {
    if s == {} then []
    else
      var m := Least(s);
      [m] + Ascending(s - {m})
  }

  /** The priorities vector: 64 first, then each prop priority not seen before. */
  method CollectPriorities(props: seq<SendProp>) returns (priorities: seq<U32>)
    ensures |priorities| > 0 && priorities[0] == 64
    ensures forall i, j :: 0 <= i < j < |priorities| ==> priorities[i] != priorities[j]
    ensures forall x :: x in priorities <==> x == 64 || exists p :: p in props && p.priority == x
  {
    priorities := [64];
    for k := 0 to |props|
      invariant |priorities| > 0 && priorities[0] == 64
      invariant forall i, j :: 0 <= i < j < |priorities| ==> priorities[i] != priorities[j]
      invariant forall x :: x in priorities <==> x == 64 || exists j :: 0 <= j < k && props[j].priority == x
    {
      var priority := props[k].priority;
      var index := 0;
      while index < |priorities| && priorities[index] != priority
        invariant index <= |priorities|
        invariant forall j :: 0 <= j < index ==> priorities[j] != priority
      {
        index := index + 1;
      }
      if index == |priorities| {
        priorities := priorities + [priority];
      }
    }
    forall x | x in priorities
      ensures x == 64 || exists p :: p in props && p.priority == x
    {
      if x != 64 {
        var j :| 0 <= j < |props| && props[j].priority == x;
        assert props[j] in props;
      }
    }
    forall x | x == 64 || exists p :: p in props && p.priority == x
      ensures x in priorities
    {
      if x != 64 {
        var p :| p in props && p.priority == x;
        var j :| 0 <= j < |props| && props[j] == p;
      }
    }
  }

  /** The first priority at or after bucket `k`; past the last bucket it exceeds
      every key. */
  function Bound(priorities: seq<U32>, k: nat): int {
    if k < |priorities| then priorities[k] else TWO_32
  }

  lemma {:induction false} NextBound(priorities: seq<U32>, k: nat, x: U32)
    requires StrictlyIncreasing(priorities) && k < |priorities| && x in priorities && x > priorities[k]
    ensures x >= Bound(priorities, k + 1)
  {
    var j :| 0 <= j < |priorities| && priorities[j] == x;
    if j > k + 1 {
      assert priorities[k + 1] < priorities[j];
    }
  }

  lemma {:induction false} SwapPermutes(s: seq<SendProp>, i: nat, j: nat)
    requires i < |s| && j < |s|
    ensures multiset(s[i := s[j]][j := s[i]]) == multiset(s)
  {
  }

  /** Every key before `n` is below `bound`. */
  predicate KeysBelow(s: seq<SendProp>, n: nat, bound: int)
    requires n <= |s|
  {
    forall i :: 0 <= i < n ==> Key(s[i]) < bound
  }

  /** Every key from `n` on is at least `bound`. */
  predicate KeysFrom(s: seq<SendProp>, n: nat, bound: int)
    requires n <= |s|
  {
    forall i :: n <= i < |s| ==> Key(s[i]) >= bound
  }

  /** The state of a bucket pass: `start..hole` holds Key `priority`, `hole..cursor`
      greater keys, and the unscanned rest keys at least `priority`. */
  predicate Partitioned(s: seq<SendProp>, start: nat, hole: nat, cursor: nat, priority: U32)
    requires start <= hole <= cursor <= |s|
  {
    (forall i :: start <= i < hole ==> Key(s[i]) == priority)
    && (forall i :: hole <= i < cursor ==> Key(s[i]) > priority)
    && (forall i :: cursor <= i < |s| ==> Key(s[i]) >= priority)
  }

  /** One step of the pass: a prop of the bucket is swapped to the hole, any other is
      left where it is. */
  lemma {:induction false} PassStep(s: seq<SendProp>, start: nat, hole: nat, cursor: nat, priority: U32)
    requires start <= hole <= cursor < |s| && Partitioned(s, start, hole, cursor, priority)
    ensures InBucket(s[cursor], priority) ==>
              var t := s[hole := s[cursor]][cursor := s[hole]];
              Partitioned(t, start, hole + 1, cursor + 1, priority)
              && multiset(t) == multiset(s) && t[..start] == s[..start]
    ensures !InBucket(s[cursor], priority) ==> Partitioned(s, start, hole, cursor + 1, priority)
  {
    InBucketIsKey(s[cursor], priority);
    if InBucket(s[cursor], priority) {
      var t := s[hole := s[cursor]][cursor := s[hole]];
      SwapPermutes(s, hole, cursor);
      assert t[..start] == s[..start];
      assert forall i :: hole < i <= cursor ==> Key(t[i]) > priority by {
        forall i | hole < i <= cursor
          ensures Key(t[i]) > priority
        {
          if i < cursor {
            assert t[i] == s[i];
          } else {
            assert t[i] == s[hole];
          }
        }
      }
    }
  }

  /** One bucket pass of compile_send_table: every prop from `start` on has Key at
      least `priority`; the pass swaps those of Key `priority` to `start..hole` and
      leaves the others, all of greater Key, after them. */
  method BucketPass(props: array<SendProp>, start: nat, priority: U32) returns (hole: nat)
    requires start <= props.Length && KeysFrom(props[..], start, priority)
    modifies props
    ensures start <= hole <= props.Length
    ensures multiset(props[..]) == old(multiset(props[..]))
    ensures props[..start] == old(props[..start])
    ensures Partitioned(props[..], start, hole, props.Length, priority)
  {
    hole := start;
    var cursor := hole;
    while cursor < props.Length
      invariant start <= hole <= cursor <= props.Length
      invariant multiset(props[..]) == old(multiset(props[..]))
      invariant props[..start] == old(props[..start])
      invariant Partitioned(props[..], start, hole, cursor, priority)
    {
      hole := PassVisit(props, start, hole, cursor, priority);
      cursor := cursor + 1;
    }
  }

  /** The body of a bucket pass for the prop at `cursor`: one of the bucket is
      swapped to the hole, which moves up by one; any other stays put. */
  method PassVisit(props: array<SendProp>, start: nat, hole: nat, cursor: nat, priority: U32) returns (hole': nat)
    requires start <= hole <= cursor < props.Length && Partitioned(props[..], start, hole, cursor, priority)
    modifies props
    ensures hole' == if InBucket(old(props[cursor]), priority) then hole + 1 else hole
    ensures multiset(props[..]) == old(multiset(props[..]))
    ensures props[..start] == old(props[..start])
    ensures start <= hole' <= cursor + 1 && Partitioned(props[..], start, hole', cursor + 1, priority)
  {
    ghost var before := props[..];
    PassStep(before, start, hole, cursor, priority);
    hole' := hole;
    if props[cursor].priority == priority || (priority == 64 && Has(props[cursor].flags, CHANGES_OFTEN)) {
      props[hole], props[cursor] := props[cursor], props[hole];
      assert props[..] == before[hole := before[cursor]][cursor := before[hole]];
      hole' := hole + 1;
    }
  }

  /** Once the bound has passed every 32-bit key, nothing is left unplaced. */
  lemma {:induction false} Exhausted(s: seq<SendProp>, n: nat)
    requires n <= |s| && KeysFrom(s, n, TWO_32)
    ensures n == |s|
  {
    assert n < |s| ==> Key(s[n]) >= TWO_32;
  }

  /** After the pass for bucket `k`, the placed prefix extends to `hole`, stays
      sorted, and everything after it belongs to a later bucket. */
  lemma {:induction false} PassAdvances(before: seq<SendProp>, after: seq<SendProp>, original: seq<SendProp>,
                     priorities: seq<U32>, k: nat, offset: nat, hole: nat)
    requires StrictlyIncreasing(priorities) && k < |priorities|
    requires forall p | p in original :: Key(p) in priorities
    requires offset <= hole <= |after| && |before| == |after| && multiset(after) == multiset(original)
    requires KeysBelow(before, offset, priorities[k]) && SortedByKey(before[..offset])
    requires after[..offset] == before[..offset]
    requires Partitioned(after, offset, hole, |after|, priorities[k])
    ensures KeysBelow(after, hole, Bound(priorities, k + 1)) && KeysFrom(after, hole, Bound(priorities, k + 1))
    ensures SortedByKey(after[..hole])
  {
    forall i | 0 <= i < offset
      ensures after[i] == before[i]
    {
      assert after[..offset][i] == before[..offset][i];
    }
    forall i | hole <= i < |after|
      ensures Key(after[i]) >= Bound(priorities, k + 1)
    {
      assert after[i] in multiset(after);
      assert after[i] in original;
      NextBound(priorities, k, Key(after[i]));
    }
    forall i, j | 0 <= i < j < hole
      ensures Key(after[..hole][i]) <= Key(after[..hole][j])
    {
      if j < offset {
        assert before[..offset][i] == before[i] && before[..offset][j] == before[j];
      }
    }
  }

  /** The bucket passes of compile_send_table, one per priority in ascending order.
      The result is a permutation of the props, ordered by Key. */
  method Reorder(props: array<SendProp>, priorities: seq<U32>)
    requires StrictlyIncreasing(priorities)
    requires forall p | p in props[..] :: Key(p) in priorities
    modifies props
    ensures multiset(props[..]) == old(multiset(props[..]))
    ensures SortedByKey(props[..])
  {
    ghost var original := props[..];
    var offset := 0;
    for k := 0 to |priorities|
      invariant offset <= props.Length
      invariant multiset(props[..]) == multiset(original)
      invariant KeysBelow(props[..], offset, Bound(priorities, k))
      invariant KeysFrom(props[..], offset, Bound(priorities, k))
      invariant SortedByKey(props[..offset])
    {
      ghost var before := props[..];
      var hole := BucketPass(props, offset, priorities[k]);
      PassAdvances(before, props[..], original, priorities, k, offset, hole);
      offset := hole;
    }
    Exhausted(props[..], offset);
    assert props[..] == props[..offset];
  }
}
