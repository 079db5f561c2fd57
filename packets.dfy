/** The packet-entities driver of src/edith.cpp: read_entity_header,
    get_baseline_for, read_entity_enter_pvs, read_entity_update and
    dump_SVC_PacketEntities, with the visitor's callbacks recorded as an event
    log. The same functions appear in src/main.cpp, which adds the first-packet
    skip and clear_entities (module PacketDriver). */
module Packets {
  import opened Wrappers
  import opened Bits
  import opened BitReader
  import opened Schema
  import opened Properties
  import opened Dictionaries
  import opened Entities
  import opened States
  import opened StringUpdates

  /** Entity ids that may enter the PVS are below MAX_EDICTS. */
  const MAX_EDICTS: nat := 0x800

  // UpdateFlag (src/edith.cpp:19-23).
  const UF_LEAVE_PVS: U32 := 1
  const UF_DELETE: U32 := 2
  const UF_ENTER_PVS: U32 := 4

  /** One visitor callback, with what the entity held when it was made. */
  datatype Event = Created(entity: EntityView) | Updated(entity: EntityView) | Deleted(entity: EntityView)

  /** An entity slot as a value: Entity's fields. */
  datatype Slot = Slot(id: U32, clazz: Option<Class>, table: Option<FlatSendTable>, properties: seq<Option<PropValue>>)

  function ViewOf(s: Slot): EntityView {
    EntityView(s.id, s.clazz, s.properties)
  }

  /** The props an update of the slot decodes with (Entity::Props). */
  function SlotProps(s: Slot): seq<SendProp> {
    if s.table.Some? then s.table.value.props else []
  }

  /** The slot pool and the callbacks made so far. */
  datatype World = World(slots: seq<Slot>, events: seq<Event>)

  /** State::entities holds MAX_ENTITIES slots. */
  predicate Sized(w: World) {
    |w.slots| == MAX_ENTITIES
  }

  /** What entering an entity looks up in the state: the width of a class id, the
      classes, the compiled tables, and the entries of the instance baseline table
      (or why there is no such table). */
  datatype Catalog = Catalog(classBits: nat, classes: seq<Class>, flatTables: seq<FlatSendTable>,
                             baseline: Result<seq<Entry>>)

  /** An entity header: the entity id it moves to and its UpdateFlag bits. */
  datatype Header = Header(id: U32, flags: U32)

  /** CSVCMsg_PacketEntities: whether it is a delta, how many headers it holds,
      and the entity data. */
  datatype PacketEntities = PacketEntities(isDelta: bool, updatedEntries: U32, entityData: Bytes)

  // ------------------------------------------------------------- decimal keys

  const DIGIT_ZERO: Byte := 0x30
  const MINUS_SIGN: Byte := 0x2D

  predicate IsDigit(b: Byte) {
    DIGIT_ZERO <= b <= DIGIT_ZERO + 9
  }

  /** The decimal digits of n, most significant first, without leading zeros. */
  function Digits(n: nat): (s: Bytes)
    ensures |s| >= 1 && forall i :: 0 <= i < |s| ==> IsDigit(s[i])
    ensures (s[0] == DIGIT_ZERO) <==> n == 0
    decreases n
  {
    if n < 10 then [DIGIT_ZERO + n]
    else Digits(n / 10) + [DIGIT_ZERO + n % 10]
  }

  /** The number a run of decimal digits denotes. */
  function DigitsValue(s: Bytes): nat
    requires forall i :: 0 <= i < |s| ==> IsDigit(s[i])
    decreases |s|
  {
    if |s| == 0 then 0
    else
      assert IsDigit(s[|s| - 1]);
      DigitsValue(s[..|s| - 1]) * 10 + (s[|s| - 1] - DIGIT_ZERO)
  }

  /** Reading the digits back gives the number. */
  lemma {:induction false} DigitsRoundTrip(n: nat)
    ensures DigitsValue(Digits(n)) == n
    decreases n
  {
    if n >= 10 {
      var s := Digits(n);
      assert s[..|s| - 1] == Digits(n / 10);
      DigitsRoundTrip(n / 10);
    }
  }

  /** `sprintf("%d", class_i)` with class_i an int: a uint32 from 2^31 up is
      printed as the negative number it becomes. */
  function DecimalText(v: U32): (t: Bytes)
    ensures |t| >= 1 && (t[0] == MINUS_SIGN <==> v >= 0x8000_0000)
    ensures forall i :: 1 <= i < |t| ==> IsDigit(t[i])
  {
    if v < 0x8000_0000 then Digits(v) else [MINUS_SIGN] + Digits(TWO_32 - v)
  }

  /** Two class ids never share a baseline key. */
  lemma {:induction false} DecimalTextInjective(a: U32, b: U32)
    requires DecimalText(a) == DecimalText(b)
    ensures a == b
  {
    if a < 0x8000_0000 && b < 0x8000_0000 {
      DigitsRoundTrip(a);
      DigitsRoundTrip(b);
    } else if a >= 0x8000_0000 && b >= 0x8000_0000 {
      assert DecimalText(a)[1..] == Digits(TWO_32 - a);
      assert DecimalText(b)[1..] == Digits(TWO_32 - b);
      DigitsRoundTrip(TWO_32 - a);
      DigitsRoundTrip(TWO_32 - b);
    }
  }

  /** get_baseline_for(class_i): the value of the instance baseline entry whose key
      is the class id in decimal; fails without that table or that entry. */
  function BaselineFor(cat: Catalog, classI: U32): (r: Result<Bytes>)
    ensures r.Ok? <==> cat.baseline.Ok? && exists i :: 0 <= i < |cat.baseline.value| && cat.baseline.value[i].key == DecimalText(classI)
    ensures r.Ok? ==> exists i :: 0 <= i < |cat.baseline.value| && cat.baseline.value[i] == Entry(DecimalText(classI), r.value)
  {
    var entries :- cat.baseline;
    var e :- Find(entries, EntryKey, DecimalText(classI));
    Ok(e.value)
  }

  // ------------------------------------------------------ read_entity_header

  /** read_entity_header: the id delta is the 6-bit head and 4-, 8- or 28-bit
      extension read_var_uint also reads (without its end-of-stream check); the id
      moves on by delta + 1 as a uint32. Then one bit says leave, and a second bit
      says enter (after a clear first bit) or delete (after a set one). */
  function TakeEntityHeader(r: Reader, base: U32): (g: Result<Got<Header>>)
    ensures g.Ok? ==> g.value.value.flags in {0, UF_ENTER_PVS, UF_LEAVE_PVS, UF_LEAVE_PVS + UF_DELETE}
    ensures g.Ok? ==> TakeHeadExtension(r).Ok?
    ensures g.Ok? ==> var d := TakeHeadExtension(r).value;
                      && g.value.value.id == Wrap32(base + d.value + 1)
                      && g.value.rest == d.rest.(pos := d.rest.pos + 2)
  {
    var delta :- TakeHeadExtension(r);
    var leave :- TakeBits(delta.rest, 1);
    var second :- TakeBits(leave.rest, 1);
    var flags :=
      if leave.value == 0 then (if second.value != 0 then UF_ENTER_PVS else 0)
      else if second.value != 0 then UF_LEAVE_PVS + UF_DELETE
      else UF_LEAVE_PVS;
    Ok(Got(Header(Wrap32(base + delta.value + 1), flags), second.rest))
  }

  /** A header consumes the 6-bit head, its extension and the two flag bits. */
  lemma {:induction false} HeaderLength(r: Reader, base: U32)
    requires TakeEntityHeader(r, base).Ok?
    ensures r.pos + 8 <= TakeEntityHeader(r, base).value.rest.pos
  {
    var h := TakeBits(r, 6).value;
    HeadExtensionShape(r, h.value, h.rest, TakeHeadExtension(r).value);
  }

  // --------------------------------------------------- read_entity_enter_pvs

  /** Entity(id, clazz, table): one empty property slot per prop. */
  function Fresh(id: U32, clazz: Class, table: FlatSendTable): (s: Slot)
    ensures |s.properties| == |table.props| && forall i :: 0 <= i < |s.properties| ==> s.properties[i].None?
  {
    Slot(id, Some(clazz), Some(table), seq(|table.props|, _ => None))
  }

  /** The deleted event read_entity_enter_pvs makes for an occupied slot it
      overwrites. */
  function Evicted(s: Slot): seq<Event> {
    if s.id != NO_ID then [Deleted(ViewOf(s))] else []
  }

  /** `next` is `w` after entering `id`: only that slot changed; it holds the id,
      a class of the catalog and that class's compiled table, one property slot per
      prop; the events gained a deletion of an occupied slot, then the creation. */
  predicate Entered(w: World, id: U32, cat: Catalog, next: World)
    requires Sized(w) && id < MAX_ENTITIES
  {
    && Sized(next)
    && (forall i :: 0 <= i < |w.slots| && i != id ==> next.slots[i] == w.slots[i])
    && var s := next.slots[id];
       && s.id == id && s.clazz.Some? && s.clazz.value in cat.classes
       && s.table.Some? && s.table.value in cat.flatTables
       && s.table.value.name == s.clazz.value.dtName
       && |s.properties| == |s.table.value.props|
       && next.events == w.events + Evicted(w.slots[id]) + [Created(ViewOf(s))]
  }

  /** read_entity_enter_pvs, from the class id on: the slot is reset for the class
      and its table, patched from the class's baseline, then patched from the
      packet; a deleted event for an occupied slot comes first and the created
      event last. */
  function TakeEnter(r: Reader, cat: Catalog, w: World, id: U32): (g: Result<Got<World>>)
    requires Sized(w)
    ensures g.Ok? ==> id < MAX_EDICTS && g.value.rest.bits == r.bits && r.pos < g.value.rest.pos
    ensures g.Ok? ==> Entered(w, id, cat, g.value.value)
  {
    var classI :- TakeBits(r, cat.classBits);
    var serial :- TakeBits(classI.rest, 10);
    if id >= MAX_EDICTS then Err(FormatViolation("Entity exceeds max edicts."))
    else EnterClass(serial.rest, cat, w, id, classI.value)
  }

  /** The rest of read_entity_enter_pvs once the class id and the serial are read
      and the id is checked: look up the class, its compiled table and its
      baseline, then spawn the entity into the slot. */
  function EnterClass(r: Reader, cat: Catalog, w: World, id: U32, classI: U32): (g: Result<Got<World>>)
    requires Sized(w) && id < MAX_EDICTS
    ensures g.Ok? ==> g.value.rest.bits == r.bits && r.pos < g.value.rest.pos
    ensures g.Ok? ==> Entered(w, id, cat, g.value.value)
  {
    if classI >= |cat.classes| then Err(FormatViolation("Class does not exist."))
    else
      var clazz := cat.classes[classI];
      var table :- Find(cat.flatTables, FlatTableName, clazz.dtName);
      FillSlot(r, cat, w, id, classI, clazz, table)
  }

  /** The slot half of EnterClass: look up the baseline of class `classI`, then
      spawn the entity of `clazz` and `table` into slot `id`. Only that slot
      changes; a deleted event for an occupied slot comes first and the created
      event last. */
  function FillSlot(r: Reader, cat: Catalog, w: World, id: U32, classI: U32, clazz: Class, table: FlatSendTable)
    : (g: Result<Got<World>>)
    requires Sized(w) && id < MAX_EDICTS
    ensures g.Ok? ==> g.value.rest.bits == r.bits && r.pos < g.value.rest.pos
    ensures g.Ok? ==> && Sized(g.value.value)
                      && forall i :: 0 <= i < |w.slots| && i != id ==> g.value.value.slots[i] == w.slots[i]
    ensures g.Ok? ==> var s := g.value.value.slots[id];
                      && s.id == id && s.clazz == Some(clazz) && s.table == Some(table)
                      && |s.properties| == |table.props|
                      && g.value.value.events == w.events + Evicted(w.slots[id]) + [Created(ViewOf(s))]
  {
    var baseline :- BaselineFor(cat, classI);
    var s :- TakeSpawn(r, id, clazz, table, baseline);
    Ok(Got(World(w.slots[id := s.value], w.events + Evicted(w.slots[id]) + [Created(ViewOf(s.value))]), s.rest))
  }

  /** The entity read_entity_enter_pvs builds: a fresh slot for the class and
      table, patched first from the baseline's own stream, then from the packet. */
  function TakeSpawn(r: Reader, id: U32, clazz: Class, table: FlatSendTable, baseline: Bytes): (g: Result<Got<Slot>>)
    ensures g.Ok? ==> g.value.rest.bits == r.bits && r.pos < g.value.rest.pos
    ensures g.Ok? ==> var s := g.value.value;
                      s.id == id && s.clazz == Some(clazz) && s.table == Some(table) && |s.properties| == |table.props|
  {
    var based :- TakeUpdate(Open(baseline), table.props, Fresh(id, clazz, table).properties);
    var patched :- TakeUpdate(r, table.props, based.value);
    Ok(Got(Fresh(id, clazz, table).(properties := patched.value), patched.rest))
  }

  /** Baseline before delta, for any delta: a slot the packet's field list names
      holds the value the packet decodes for its last listing there; a slot only
      the baseline's list names holds the baseline's value for its last listing;
      any other slot is empty. The entity ends where the packet's values end. */
  lemma {:induction false} SpawnLayers(r: Reader, id: U32, clazz: Class, table: FlatSendTable, baseline: Bytes)
    requires TakeSpawn(r, id, clazz, table, baseline).Ok?
    ensures TakeFieldList(Open(baseline)).Ok? && TakeFieldList(r).Ok?
    ensures var base := TakeFieldList(Open(baseline)).value;
            var delta := TakeFieldList(r).value;
            && DecodeFields(base.rest, table.props, |table.props|, base.value).Ok?
            && DecodeFields(delta.rest, table.props, |table.props|, delta.value).Ok?
            && var baseValues := DecodeFields(base.rest, table.props, |table.props|, base.value).value.value;
               var deltaValues := DecodeFields(delta.rest, table.props, |table.props|, delta.value).value;
               var spawned := TakeSpawn(r, id, clazz, table, baseline).value;
               && spawned.rest == deltaValues.rest
               && (forall k | LastListing(delta.value, k) :: spawned.value.properties[delta.value[k]] == Some(deltaValues.value[k]))
               && (forall k | LastListing(base.value, k) && base.value[k] !in delta.value ::
                     spawned.value.properties[base.value[k]] == Some(baseValues[k]))
               && (forall j | 0 <= j < |table.props| && j !in base.value && j !in delta.value ::
                     spawned.value.properties[j].None?)
  {
    var blank := Fresh(id, clazz, table).properties;
    var based := TakeUpdate(Open(baseline), table.props, blank).value;
    UpdateWrites(Open(baseline), table.props, blank);
    UpdateWrites(r, table.props, based.value);
  }

  /** Baseline before delta: when the packet's own field list for the entity is
      only the end marker, the entity holds exactly what its baseline sets. */
  lemma {:induction false} EmptyDeltaKeepsBaseline(r: Reader, cat: Catalog, w: World, id: U32, classI: U32,
                                                  clazz: Class, table: FlatSendTable, baseline: Bytes,
                                                  based: Got<seq<Option<PropValue>>>)
    requires Sized(w) && id < MAX_EDICTS
    requires Holds(r.bits, r.pos, [false] + BytesToBits(Leb128(END_CODE)))
    requires classI < |cat.classes| && clazz == cat.classes[classI]
    requires Find(cat.flatTables, FlatTableName, clazz.dtName) == Ok(table)
    requires BaselineFor(cat, classI) == Ok(baseline)
    requires TakeUpdate(Open(baseline), table.props, Fresh(id, clazz, table).properties) == Ok(based)
    ensures EnterClass(r, cat, w, id, classI).Ok?
    ensures EnterClass(r, cat, w, id, classI).value.value.slots[id].properties == based.value
    ensures EnterClass(r, cat, w, id, classI).value.rest.pos == r.pos + 17
  {
    EndMarkerLeavesSlots(r.bits, r.pos, table.props, based.value);
    assert TakeSpawn(r, id, clazz, table, baseline).Ok?;
  }

  // ------------------------------------------------------- read_entity_update

  /** read_entity_update: the id must name an occupied slot below MAX_ENTITIES; its
      properties are patched, everything else about it stays, and an updated event
      follows. */
  function TakeEntityUpdate(r: Reader, w: World, id: U32): (g: Result<Got<World>>)
    requires Sized(w)
    ensures g.Ok? <==> id < MAX_ENTITIES && w.slots[id].id != NO_ID
                       && TakeUpdate(r, SlotProps(w.slots[id]), w.slots[id].properties).Ok?
    ensures g.Ok? ==> Sized(g.value.value) && g.value.rest.bits == r.bits && r.pos < g.value.rest.pos
    ensures g.Ok? ==> forall i :: 0 <= i < |w.slots| && i != id ==> g.value.value.slots[i] == w.slots[i]
    ensures g.Ok? ==> var s := g.value.value.slots[id];
                      && s.id == w.slots[id].id && s.clazz == w.slots[id].clazz && s.table == w.slots[id].table
                      && |s.properties| == |w.slots[id].properties|
                      && g.value.value.events == w.events + [Updated(ViewOf(s))]
  {
    if id >= MAX_ENTITIES then Err(FormatViolation("Entity id too big"))
    else if w.slots[id].id == NO_ID then Err(FormatViolation("Entity is not set up."))
    else
      var patched :- TakeUpdate(r, SlotProps(w.slots[id]), w.slots[id].properties);
      var s := w.slots[id].(properties := patched.value);
      Ok(Got(World(w.slots[id := s], w.events + [Updated(ViewOf(s))]), patched.rest))
  }

  // ------------------------------------------------------ deletions

  /** The visitor is told about the slot, then only its id is reset: the class,
      table and properties stay behind in the slot. */
  function Delete(w: World, id: nat): (d: World)
    requires id < |w.slots|
    ensures |d.slots| == |w.slots| && forall i :: 0 <= i < |w.slots| && i != id ==> d.slots[i] == w.slots[i]
    ensures d.slots[id].id == NO_ID && d.slots[id].clazz == w.slots[id].clazz
            && d.slots[id].table == w.slots[id].table && d.slots[id].properties == w.slots[id].properties
    ensures d.events == w.events + [Deleted(ViewOf(w.slots[id]))]
  {
    World(w.slots[id := w.slots[id].(id := NO_ID)], w.events + [Deleted(ViewOf(w.slots[id]))])
  }

  // ------------------------------------------------ dump_SVC_PacketEntities

  /** The world after one header and the id it moved to. */
  datatype Visit = Visit(world: World, id: U32)

  /** One pass of the header loop: read the header from `base`, then enter,
      leave (only in a delta; with the delete bit the slot is emptied whatever it
      held) or update. */
  function TakePacketEntry(r: Reader, cat: Catalog, w: World, base: U32, isDelta: bool): (g: Result<Got<Visit>>)
    requires Sized(w)
    ensures g.Ok? ==> TakeEntityHeader(r, base).Ok? && g.value.value.id == TakeEntityHeader(r, base).value.value.id
    ensures g.Ok? ==> Sized(g.value.value.world) && g.value.rest.bits == r.bits
    ensures g.Ok? ==> TakeEntityHeader(r, base).value.rest.pos <= g.value.rest.pos
    ensures g.Ok? ==> w.events <= g.value.value.world.events
  {
    var h :- TakeEntityHeader(r, base);
    var e :- TakeEntryBody(h.rest, cat, w, h.value, isDelta);
    Ok(Got(Visit(e.value, h.value.id), e.rest))
  }

  /** What follows a header: enter, leave (only in a delta; with the delete bit
      the slot is emptied whatever it held) or update. */
  function TakeEntryBody(r: Reader, cat: Catalog, w: World, h: Header, isDelta: bool): (g: Result<Got<World>>)
    requires Sized(w)
    ensures g.Ok? ==> && Sized(g.value.value) && g.value.rest.bits == r.bits && r.pos <= g.value.rest.pos
                      && w.events <= g.value.value.events
  {
    var id := h.id;
    if Has(h.flags, UF_ENTER_PVS) then TakeEnter(r, cat, w, id)
    else if Has(h.flags, UF_LEAVE_PVS) then
      if !isDelta then Err(FormatViolation("Leave PVS on full update"))
      else if !Has(h.flags, UF_DELETE) then Ok(Got(w, r))
      else if id >= |w.slots| then Err(UndefinedBehaviour("entity index out of range"))
      else Ok(Got(Delete(w, id), r))
    else TakeEntityUpdate(r, w, id)
  }

  /** A leave without the delete bit reads the header and changes nothing. */
  lemma {:induction false} LeaveKeepsWorld(r: Reader, cat: Catalog, w: World, base: U32)
    requires Sized(w) && TakeEntityHeader(r, base).Ok? && TakeEntityHeader(r, base).value.value.flags == UF_LEAVE_PVS
    ensures var h := TakeEntityHeader(r, base).value;
            TakePacketEntry(r, cat, w, base, true) == Ok(Got(Visit(w, h.value.id), h.rest))
    ensures TakePacketEntry(r, cat, w, base, false) == Err(FormatViolation("Leave PVS on full update"))
  {
    assert !Has(UF_LEAVE_PVS, UF_ENTER_PVS) && Has(UF_LEAVE_PVS, UF_LEAVE_PVS) && !Has(UF_LEAVE_PVS, UF_DELETE);
  }

  /** A leave with the delete bit reports the slot and resets its id, even when
      the slot was already empty; the rest of the slot stays. */
  lemma {:induction false} LeaveDeleteEmptiesSlot(r: Reader, cat: Catalog, w: World, base: U32)
    requires Sized(w) && TakeEntityHeader(r, base).Ok?
    requires TakeEntityHeader(r, base).value.value.flags == UF_LEAVE_PVS + UF_DELETE
    requires TakeEntityHeader(r, base).value.value.id < MAX_ENTITIES
    ensures var h := TakeEntityHeader(r, base).value;
            var g := TakePacketEntry(r, cat, w, base, true);
            && g.Ok? && g.value.rest == h.rest
            && g.value.value.world.slots == w.slots[h.value.id := w.slots[h.value.id].(id := NO_ID)]
            && g.value.value.world.events == w.events + [Deleted(ViewOf(w.slots[h.value.id]))]
  {
    var flags := UF_LEAVE_PVS + UF_DELETE;
    assert !Has(flags, UF_ENTER_PVS) && Has(flags, UF_LEAVE_PVS) && Has(flags, UF_DELETE);
  }

  /** The header loop of dump_SVC_PacketEntities from its `found`-th header on, the
      id standing at `base`. */
  function TakeHeaders(r: Reader, cat: Catalog, w: World, base: U32, found: nat, count: nat, isDelta: bool)
    : (g: Result<Got<World>>)
    requires Sized(w)
    ensures g.Ok? ==> Sized(g.value.value) && g.value.rest.bits == r.bits
    ensures g.Ok? ==> w.events <= g.value.value.events
    ensures g.Ok? && found <= count ==> r.pos + 8 * (count - found) <= g.value.rest.pos
    decreases count - found
  {
    if found >= count then Ok(Got(w, r))
    else
      var next :- TakePacketEntry(r, cat, w, base, isDelta);
      HeaderLength(r, base);
      TakeHeaders(next.rest, cat, next.value.world, next.value.id, found + 1, count, isDelta)
  }

  /** The trailing deletions of a delta packet: while a set bit comes, an 11-bit id
      follows and that slot is deleted. Slots only lose their ids and every event
      added is a deletion. */
  function TakeDeletions(r: Reader, w: World): (g: Result<Got<World>>)
    requires Sized(w)
    ensures g.Ok? ==> Sized(g.value.value) && g.value.rest.bits == r.bits && r.pos < g.value.rest.pos
    ensures g.Ok? ==> w.events <= g.value.value.events
    ensures g.Ok? ==> forall k :: |w.events| <= k < |g.value.value.events| ==> g.value.value.events[k].Deleted?
    ensures g.Ok? ==> forall i :: 0 <= i < |w.slots| ==>
              g.value.value.slots[i] == w.slots[i] || g.value.value.slots[i] == w.slots[i].(id := NO_ID)
    decreases r.End() - r.pos
  {
    var more :- TakeBits(r, 1);
    if more.value == 0 then Ok(Got(w, more.rest))
    else
      var id :- TakeBits(more.rest, 11);
      assert id.value < MAX_ENTITIES by {
        Pow2Constants();
      }
      TakeDeletions(id.rest, Delete(w, id.value))
  }

  /** dump_SVC_PacketEntities: exactly `updatedEntries` headers, each taking at
      least 8 bits; then, in a delta, the trailing deletions. */
  function TakePacket(cat: Catalog, w: World, m: PacketEntities): (r: Result<World>)
    requires Sized(w)
    ensures r.Ok? ==> Sized(r.value) && w.events <= r.value.events
    ensures r.Ok? ==> 8 * m.updatedEntries <= 8 * |m.entityData|
  {
    var headers :- TakeHeaders(Open(m.entityData), cat, w, NO_ID, 0, m.updatedEntries, m.isDelta);
    if m.isDelta then
      var rest :- TakeDeletions(headers.rest, headers.value);
      Ok(rest.value)
    else Ok(headers.value)
  }

  // ------------------------------------------------------ clear_entities

  /** Every slot with its id reset; nothing else about a slot changes. */
  function Cleared(slots: seq<Slot>): (c: seq<Slot>)
    ensures |c| == |slots| && forall i :: 0 <= i < |c| ==> c[i] == slots[i].(id := NO_ID)
  {
    seq(|slots|, i requires 0 <= i < |slots| => slots[i].(id := NO_ID))
  }

  /** The number of occupied slots. */
  function Occupied(slots: seq<Slot>): nat
    decreases |slots|
  {
    if |slots| == 0 then 0
    else Occupied(slots[..|slots| - 1]) + (if slots[|slots| - 1].id != NO_ID then 1 else 0)
  }

  /** The callbacks clear_entities makes: one deletion per occupied slot, in slot
      order. */
  function ClearedEvents(slots: seq<Slot>): (e: seq<Event>)
    ensures |e| == Occupied(slots)
    decreases |slots|
  {
    if |slots| == 0 then []
    else ClearedEvents(slots[..|slots| - 1]) + Evicted(slots[|slots| - 1])
  }

  /** Each callback of clear_entities is a deletion reporting an occupied slot. */
  lemma {:induction false} ClearedEventsReportOccupied(slots: seq<Slot>)
    ensures var e := ClearedEvents(slots);
            forall k :: 0 <= k < |e| ==> e[k].Deleted? && e[k].entity.id != NO_ID
    ensures var e := ClearedEvents(slots);
            forall k :: 0 <= k < |e| ==> exists i :: 0 <= i < |slots| && e[k] == Deleted(ViewOf(slots[i]))
    decreases |slots|
  {
    if |slots| > 0 {
      var init := slots[..|slots| - 1];
      ClearedEventsReportOccupied(init);
      var e := ClearedEvents(slots);
      assert e == ClearedEvents(init) + Evicted(slots[|slots| - 1]);
      forall k | 0 <= k < |e|
        ensures exists i :: 0 <= i < |slots| && e[k] == Deleted(ViewOf(slots[i]))
      {
        if k < |ClearedEvents(init)| {
          var i :| 0 <= i < |init| && ClearedEvents(init)[k] == Deleted(ViewOf(init[i]));
          assert slots[i] == init[i];
        } else {
          assert e[k] == Deleted(ViewOf(slots[|slots| - 1]));
        }
      }
    }
  }
}
