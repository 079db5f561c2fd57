/** The packet-entities driver on the program's own state: the visitor as an
    event log, the entity slots of State, and the loops of dump_SVC_PacketEntities
    (src/edith.cpp and src/main.cpp) and clear_entities (src/main.cpp), each
    proved to do what the value-level functions of module Packets describe. */
module PacketDriver {
  import opened Wrappers
  import opened Bits
  import opened BitReader
  import opened Schema
  import opened Dictionaries
  import opened Entities
  import opened States
  import opened StringUpdates
  import opened Packets

  /** The Visitor: each callback appends what the entity holds at that moment. */
  class EventLog {
    var events: seq<Event>

    constructor ()
      ensures events == []
    {
      events := [];
    }

    method VisitCreated(entity: Entity)
      modifies this
      ensures events == old(events) + [Created(entity.View())]
    {
      events := events + [Created(entity.View())];
    }

    method VisitUpdated(entity: Entity)
      modifies this
      ensures events == old(events) + [Updated(entity.View())]
    {
      events := events + [Updated(entity.View())];
    }

    method VisitDeleted(entity: Entity)
      modifies this
      ensures events == old(events) + [Deleted(entity.View())]
    {
      events := events + [Deleted(entity.View())];
    }
  }

  /** An entity object as a slot value. */
  ghost function SlotOf(e: Entity): Slot
    reads e
  {
    Slot(e.id, e.clazz, e.table, e.properties)
  }

  /** The entity objects of `state` hold `slots`, one for one. */
  ghost predicate Mirrors(state: State, slots: seq<Slot>)
    reads state, state.entities, state.entities[..]
  {
    state.entities.Length == |slots| && forall i :: 0 <= i < |slots| ==> SlotOf(state.entities[i]) == slots[i]
  }

  /** The slots the entity objects of `state` hold. */
  ghost function Slots(state: State): (s: seq<Slot>)
    reads state, state.entities, state.entities[..]
    ensures Mirrors(state, s)
  {
    seq(state.entities.Length, i requires 0 <= i < state.entities.Length reads state.entities, state.entities[..]
                                 => SlotOf(state.entities[i]))
  }

  /** What entering an entity looks up in `state`. */
  ghost function CatalogOf(state: State): Catalog
    reads state, state.stringTables
  {
    Catalog(state.classBits, state.classes, state.flatSendTables,
            match state.GetStringTableNamed(INSTANCE_BASELINE_TABLE)
            case Ok(t) => Ok(t.entries)
            case Err(e) => Err(e))
  }

  /** read_entity_header on the stream. */
  method ReadEntityHeader(stream: Bitstream, base: U32) returns (r: Result<Header>)
    requires stream.Valid()
    modifies stream
    ensures stream.Valid() && Agrees(r, stream.View(), TakeEntityHeader(old(stream.View()), base))
  {
    var value :- stream.ReadHeadExtension();
    var id := Wrap32(base + value + 1);
    var leave :- stream.GetBits(1);
    var second :- stream.GetBits(1);
    var flags: U32 := 0;
    if leave == 0 {
      if second != 0 {
        flags := UF_ENTER_PVS;
      }
    } else {
      flags := UF_LEAVE_PVS;
      if second != 0 {
        flags := UF_LEAVE_PVS + UF_DELETE;
      }
    }
    r := Ok(Header(id, flags));
  }

  /** read_entity_enter_pvs on the stream and the slots. */
  method ReadEntityEnterPvs(state: State, log: EventLog, stream: Bitstream, id: U32, ghost w: World)
    returns (o: Outcome)
    requires state.Valid() && stream.Valid() && Sized(w) && Mirrors(state, w.slots) && log.events == w.events
    modifies state.entities[..], log, stream
    ensures stream.Valid()
    ensures match TakeEnter(old(stream.View()), old(CatalogOf(state)), w, id)
            case Ok(g) => o == Pass && stream.View() == g.rest && Mirrors(state, g.value.slots) && log.events == g.value.events
            case Err(e) => o == Fail(e)
  {
    var classI := stream.GetBits(state.classBits);
    if classI.Err? {
      return Fail(classI.error);
    }
    var serial := stream.GetBits(10);
    if serial.Err? {
      return Fail(serial.error);
    }
    if id >= MAX_EDICTS {
      return Fail(FormatViolation("Entity exceeds max edicts."));
    }
    o := PlaceEntity(state, log, stream, id, classI.value, w);
  }

  /** The rest of read_entity_enter_pvs: look up the class and its table, then
      fill the slot. */
  method PlaceEntity(state: State, log: EventLog, stream: Bitstream, id: U32, classI: U32, ghost w: World)
    returns (o: Outcome)
    requires state.Valid() && stream.Valid() && Sized(w) && Mirrors(state, w.slots) && log.events == w.events
    requires id < MAX_EDICTS
    modifies state.entities[..], log, stream
    ensures stream.Valid()
    ensures match EnterClass(old(stream.View()), old(CatalogOf(state)), w, id, classI)
            case Ok(g) => o == Pass && stream.View() == g.rest && Mirrors(state, g.value.slots) && log.events == g.value.events
            case Err(e) => o == Fail(e)
  {
    var clazz := state.GetClass(classI);
    if clazz.Err? {
      return Fail(clazz.error);
    }
    var table := state.FlatSendTableNamed(clazz.value.dtName);
    if table.Err? {
      return Fail(table.error);
    }
    o := FillEntity(state, log, stream, id, classI, clazz.value, table.value, w);
  }

  /** Reset the slot for the class and its table (reporting what it held), look
      up the baseline, then patch the entity and report it. */
  method FillEntity(state: State, log: EventLog, stream: Bitstream, id: U32, classI: U32,
                    clazz: Class, table: FlatSendTable, ghost w: World)
    returns (o: Outcome)
    requires state.Valid() && stream.Valid() && Sized(w) && Mirrors(state, w.slots) && log.events == w.events
    requires id < MAX_EDICTS
    modifies state.entities[..], log, stream
    ensures stream.Valid()
    ensures match FillSlot(old(stream.View()), old(CatalogOf(state)), w, id, classI, clazz, table)
            case Ok(g) => o == Pass && stream.View() == g.rest && Mirrors(state, g.value.slots) && log.events == g.value.events
            case Err(e) => o == Fail(e)
  {
    ghost var cat := CatalogOf(state);
    var entity := ResetEntity(state, log, id, clazz, table, w);
    var instanceBaseline := state.GetStringTableNamed(INSTANCE_BASELINE_TABLE);
    if instanceBaseline.Err? {
      return Fail(instanceBaseline.error);
    }
    var baseline := instanceBaseline.value.GetKey(DecimalText(classI));
    if baseline.Err? {
      return Fail(baseline.error);
    }
    assert BaselineFor(cat, classI) == Ok(baseline.value.value);
    o := SpawnAndReport(state, log, stream, entity, id, clazz, table, baseline.value.value, w);
  }

  /** Patch the reset entity of slot `id`, then report it created. */
  method SpawnAndReport(state: State, log: EventLog, stream: Bitstream, entity: Entity, id: U32,
                        clazz: Class, table: FlatSendTable, baseline: Bytes, ghost w: World)
    returns (o: Outcome)
    requires state.Valid() && stream.Valid() && Sized(w) && id < MAX_ENTITIES
    requires entity == state.entities[id] && SlotOf(entity) == Fresh(id, clazz, table)
    requires forall i :: 0 <= i < |w.slots| && i != id ==> SlotOf(state.entities[i]) == w.slots[i]
    requires log.events == w.events + Evicted(w.slots[id])
    modifies entity, stream, log
    ensures stream.Valid()
    ensures match TakeSpawn(old(stream.View()), id, clazz, table, baseline)
            case Ok(g) => && o == Pass && stream.View() == g.rest && Mirrors(state, w.slots[id := g.value])
                          && log.events == w.events + Evicted(w.slots[id]) + [Created(ViewOf(g.value))]
            case Err(e) => o == Fail(e)
  {
    o := SpawnEntity(entity, stream, baseline);
    if o.Fail? {
      return;
    }
    log.VisitCreated(entity);
    forall i | 0 <= i < |w.slots| && i != id
      ensures SlotOf(state.entities[i]) == w.slots[i]
    {
      assert state.entities[i] != entity;
    }
  }

  /** `entity = Entity(id, clazz, table)` on slot `id`, after the deleted callback
      for an occupied slot. */
  method ResetEntity(state: State, log: EventLog, id: U32, clazz: Class, table: FlatSendTable, ghost w: World)
    returns (entity: Entity)
    requires state.Valid() && Sized(w) && Mirrors(state, w.slots) && log.events == w.events && id < MAX_ENTITIES
    modifies state.entities[..], log
    ensures entity == state.entities[id] && SlotOf(entity) == Fresh(id, clazz, table)
    ensures forall i :: 0 <= i < |w.slots| && i != id ==> SlotOf(state.entities[i]) == w.slots[i]
    ensures log.events == w.events + Evicted(w.slots[id])
  {
    entity := state.entities[id];
    if entity.id != NO_ID {
      log.VisitDeleted(entity);
    }
    entity.Assign(id, clazz, table);
    assert entity.properties == Fresh(id, clazz, table).properties;
  }

  /** The two Entity::update calls of read_entity_enter_pvs: the baseline's own
      stream, then the packet's. */
  method SpawnEntity(entity: Entity, stream: Bitstream, baseline: Bytes) returns (o: Outcome)
    requires stream.Valid() && entity.table.Some? && entity.clazz.Some?
    requires SlotOf(entity) == Fresh(entity.id, entity.clazz.value, entity.table.value)
    modifies entity, stream
    ensures stream.Valid()
    ensures match TakeSpawn(old(stream.View()), old(entity.id), old(entity.clazz.value), old(entity.table.value), baseline)
            case Ok(g) => o == Pass && SlotOf(entity) == g.value && stream.View() == g.rest
            case Err(e) => o == Fail(e)
  {
    var baselineStream := new Bitstream(baseline);
    o := entity.Update(baselineStream);
    if o.Fail? {
      return;
    }
    o := entity.Update(stream);
  }

  /** read_entity_update on the stream and the slots. */
  method ReadEntityUpdate(state: State, log: EventLog, stream: Bitstream, id: U32, ghost w: World)
    returns (o: Outcome)
    requires state.Valid() && stream.Valid() && Sized(w) && Mirrors(state, w.slots) && log.events == w.events
    modifies state.entities[..], log, stream
    ensures stream.Valid()
    ensures match TakeEntityUpdate(old(stream.View()), w, id)
            case Ok(g) => o == Pass && stream.View() == g.rest && Mirrors(state, g.value.slots) && log.events == g.value.events
            case Err(e) => o == Fail(e)
  {
    if id >= MAX_ENTITIES {
      return Fail(FormatViolation("Entity id too big"));
    }
    var entity := state.entities[id];
    if entity.id == NO_ID {
      return Fail(FormatViolation("Entity is not set up."));
    }
    o := entity.Update(stream);
    if o.Fail? {
      return;
    }
    log.VisitUpdated(entity);
    assert Mirrors(state, w.slots[id := SlotOf(entity)]);
  }

  /** The deletion of slot `id`: the deleted callback, then the id reset. */
  method DeleteEntity(state: State, log: EventLog, id: nat, ghost w: World)
    requires state.Valid() && Sized(w) && Mirrors(state, w.slots) && log.events == w.events && id < MAX_ENTITIES
    modifies state.entities[..], log
    ensures Mirrors(state, Delete(w, id).slots) && log.events == Delete(w, id).events
  {
    var entity := state.entities[id];
    log.VisitDeleted(entity);
    entity.id := NO_ID;
  }

  /** One pass of the header loop of dump_SVC_PacketEntities. */
  method ReadPacketEntry(state: State, log: EventLog, stream: Bitstream, base: U32, isDelta: bool, ghost w: World)
    returns (r: Result<U32>, ghost next: World)
    requires state.Valid() && stream.Valid() && Sized(w) && Mirrors(state, w.slots) && log.events == w.events
    modifies state.entities[..], log, stream
    ensures stream.Valid()
    ensures match TakePacketEntry(old(stream.View()), old(CatalogOf(state)), w, base, isDelta)
            case Ok(g) => && r == Ok(g.value.id) && stream.View() == g.rest && next == g.value.world
                          && Mirrors(state, next.slots) && log.events == next.events
            case Err(e) => r == Err(e)
  {
    var header := ReadEntityHeader(stream, base);
    if header.Err? {
      return Err(header.error), w;
    }
    var o;
    o, next := ReadEntryBody(state, log, stream, header.value, isDelta, w);
    if o.Fail? {
      return Err(o.error), w;
    }
    r := Ok(header.value.id);
  }

  /** Enter, leave or update after a header. */
  method ReadEntryBody(state: State, log: EventLog, stream: Bitstream, h: Header, isDelta: bool, ghost w: World)
    returns (o: Outcome, ghost next: World)
    requires state.Valid() && stream.Valid() && Sized(w) && Mirrors(state, w.slots) && log.events == w.events
    modifies state.entities[..], log, stream
    ensures stream.Valid()
    ensures match TakeEntryBody(old(stream.View()), old(CatalogOf(state)), w, h, isDelta)
            case Ok(g) => && o == Pass && stream.View() == g.rest && next == g.value
                          && Mirrors(state, next.slots) && log.events == next.events
            case Err(e) => o == Fail(e)
  {
    next := w;
    var id := h.id;
    ghost var at := stream.View();
    ghost var cat := CatalogOf(state);
    if Has(h.flags, UF_ENTER_PVS) {
      ghost var spec := TakeEnter(at, cat, w, id);
      o := ReadEntityEnterPvs(state, log, stream, id, w);
      if o.Pass? {
        next := spec.value.value;
      }
    } else if Has(h.flags, UF_LEAVE_PVS) {
      if !isDelta {
        return Fail(FormatViolation("Leave PVS on full update")), w;
      }
      if Has(h.flags, UF_DELETE) {
        if id >= MAX_ENTITIES {
          return Fail(UndefinedBehaviour("entity index out of range")), w;
        }
        DeleteEntity(state, log, id, w);
        next := Delete(w, id);
      }
      o := Pass;
    } else {
      ghost var spec := TakeEntityUpdate(at, w, id);
      o := ReadEntityUpdate(state, log, stream, id, w);
      if o.Pass? {
        next := spec.value.value;
      }
    }
  }

  /** The header loop one step on: a failed entry fails the loop, a read one
      leaves the loop to go on from the next header. */
  lemma {:induction false} HeadersStep(r: Reader, cat: Catalog, w: World, base: U32, found: nat, count: nat,
                                       isDelta: bool, next: Result<Got<Visit>>)
    requires Sized(w) && found < count && next == TakePacketEntry(r, cat, w, base, isDelta)
    ensures next.Err? ==> TakeHeaders(r, cat, w, base, found, count, isDelta) == Err(next.error)
    ensures next.Ok? ==> TakeHeaders(r, cat, w, base, found, count, isDelta)
                         == TakeHeaders(next.value.rest, cat, next.value.value.world, next.value.value.id, found + 1, count, isDelta)
  {
  }

  /** The loop body of dump_SVC_PacketEntities, stated as the loop needs it. */
  method ReadNextHeader(state: State, log: EventLog, stream: Bitstream, base: U32, found: nat, count: nat,
                        isDelta: bool, ghost w: World, ghost total: Result<Got<World>>)
    returns (r: Result<U32>, ghost next: World)
    requires state.Valid() && stream.Valid() && Sized(w) && Mirrors(state, w.slots) && log.events == w.events
    requires found < count && total == TakeHeaders(stream.View(), CatalogOf(state), w, base, found, count, isDelta)
    modifies state.entities[..], log, stream
    ensures stream.Valid() && CatalogOf(state) == old(CatalogOf(state))
    ensures r.Err? ==> total == Err(r.error)
    ensures r.Ok? ==> && Sized(next) && Mirrors(state, next.slots) && log.events == next.events
                      && total == TakeHeaders(stream.View(), CatalogOf(state), next, r.value, found + 1, count, isDelta)
  {
    ghost var at := stream.View();
    ghost var cat := CatalogOf(state);
    r, next := ReadPacketEntry(state, log, stream, base, isDelta, w);
    HeadersStep(at, cat, w, base, found, count, isDelta, TakePacketEntry(at, cat, w, base, isDelta));
  }

  /** The trailing deletions of a delta packet, on the stream and the slots. */
  method DrainDeletions(state: State, log: EventLog, stream: Bitstream, ghost w: World) returns (o: Outcome, ghost after: World)
    requires state.Valid() && stream.Valid() && Sized(w) && Mirrors(state, w.slots) && log.events == w.events
    modifies state.entities[..], log, stream
    ensures match TakeDeletions(old(stream.View()), w)
            case Ok(g) => o == Pass && after == g.value && Mirrors(state, after.slots) && log.events == after.events
            case Err(e) => o == Fail(e)
  {
    after := w;
    ghost var total := TakeDeletions(stream.View(), w);
    while true
      invariant stream.Valid() && Sized(after) && Mirrors(state, after.slots) && log.events == after.events
      invariant total == TakeDeletions(stream.View(), after)
      decreases stream.end - stream.position
    {
      var more := stream.GetBits(1);
      if more.Err? {
        return Fail(more.error), after;
      }
      if more.value == 0 {
        return Pass, after;
      }
      var id := stream.GetBits(11);
      if id.Err? {
        return Fail(id.error), after;
      }
      assert id.value < MAX_ENTITIES by {
        Pow2Constants();
      }
      DeleteEntity(state, log, id.value, after);
      after := Delete(after, id.value);
    }
  }

  /** The header loop of dump_SVC_PacketEntities: `count` headers from id
      NO_ID on. */
  method ReadHeaders(state: State, log: EventLog, stream: Bitstream, count: nat, isDelta: bool, ghost w: World)
    returns (o: Outcome, ghost after: World)
    requires state.Valid() && stream.Valid() && Sized(w) && Mirrors(state, w.slots) && log.events == w.events
    modifies state.entities[..], log, stream
    ensures stream.Valid()
    ensures match TakeHeaders(old(stream.View()), old(CatalogOf(state)), w, NO_ID, 0, count, isDelta)
            case Ok(g) => && o == Pass && stream.View() == g.rest && after == g.value
                          && Mirrors(state, after.slots) && log.events == after.events
            case Err(e) => o == Fail(e)
  {
    after := w;
    ghost var total := TakeHeaders(stream.View(), CatalogOf(state), w, NO_ID, 0, count, isDelta);
    var entityId: U32 := NO_ID;
    var found: nat := 0;
    while found < count
      invariant stream.Valid() && Sized(after) && Mirrors(state, after.slots) && log.events == after.events
      invariant CatalogOf(state) == old(CatalogOf(state))
      invariant total == TakeHeaders(stream.View(), CatalogOf(state), after, entityId, found, count, isDelta)
      decreases count - found
    {
      var next;
      next, after := ReadNextHeader(state, log, stream, entityId, found, count, isDelta, after, total);
      if next.Err? {
        return Fail(next.error), after;
      }
      entityId := next.value;
      found := found + 1;
    }
    o := Pass;
  }

  /** dump_SVC_PacketEntities (src/edith.cpp): the packet's headers, then for a
      delta its trailing deletions, on the state's slots and the visitor. */
  method DumpPacketEntities(state: State, log: EventLog, m: PacketEntities) returns (o: Outcome)
    requires state.Valid()
    modifies state.entities[..], log
    ensures match TakePacket(old(CatalogOf(state)), World(old(Slots(state)), old(log.events)), m)
            case Ok(w) => o == Pass && Mirrors(state, w.slots) && log.events == w.events
            case Err(e) => o == Fail(e)
  {
    ghost var cat := CatalogOf(state);
    ghost var w := World(Slots(state), log.events);
    var stream := new Bitstream(m.entityData);
    ghost var headers := TakeHeaders(Open(m.entityData), cat, w, NO_ID, 0, m.updatedEntries, m.isDelta);
    o, w := ReadHeaders(state, log, stream, m.updatedEntries, m.isDelta, w);
    if o.Fail? || !m.isDelta {
      return;
    }
    ghost var at := stream.View();
    assert at == headers.value.rest;
    o, w := DrainDeletions(state, log, stream, w);
  }

  /** The `static bool first` of dump_SVC_PacketEntities in src/main.cpp. */
  class PacketGate {
    var first: bool

    constructor ()
      ensures first
    {
      first := true;
    }
  }

  /** dump_SVC_PacketEntities (src/main.cpp): the first call reads nothing and
      changes nothing; every later one is the src/edith.cpp loop. */
  method DumpPacketEntitiesAfterFirst(gate: PacketGate, state: State, log: EventLog, m: PacketEntities)
    returns (o: Outcome)
    requires state.Valid()
    modifies gate, state.entities[..], log
    ensures !gate.first
    ensures old(gate.first) ==> o == Pass && Mirrors(state, old(Slots(state))) && log.events == old(log.events)
    ensures !old(gate.first) ==>
              match TakePacket(old(CatalogOf(state)), World(old(Slots(state)), old(log.events)), m)
              case Ok(w) => o == Pass && Mirrors(state, w.slots) && log.events == w.events
              case Err(e) => o == Fail(e)
  {
    if gate.first {
      gate.first := false;
      return Pass;
    }
    o := DumpPacketEntities(state, log, m);
  }

  /** One slot of clear_entities: the deleted callback when it is occupied, then
      its id reset. */
  method ClearSlot(state: State, log: EventLog, i: nat, ghost cur: seq<Slot>)
    requires state.Valid() && i < MAX_ENTITIES && Mirrors(state, cur)
    modifies state.entities[..], log
    ensures Mirrors(state, cur[i := cur[i].(id := NO_ID)])
    ensures log.events == old(log.events) + Evicted(cur[i])
  {
    var entity := state.entities[i];
    if entity.id != NO_ID {
      log.VisitDeleted(entity);
      entity.id := NO_ID;
    }
  }

  /** The callbacks of clear_entities over one more slot. */
  lemma {:induction false} ClearedEventsStep(start: seq<Event>, before: seq<Event>, slots: seq<Slot>, i: nat)
    requires i < |slots| && before == start + ClearedEvents(slots[..i])
    ensures before + Evicted(slots[i]) == start + ClearedEvents(slots[..i + 1])
  {
    assert slots[..i + 1][..i] == slots[..i];
    assert ClearedEvents(slots[..i + 1]) == ClearedEvents(slots[..i]) + Evicted(slots[i]);
  }

  /** clear_entities (src/main.cpp): a deleted callback for each occupied slot in
      slot order, and every id reset. */
  method ClearEntities(state: State, log: EventLog)
    requires state.Valid()
    modifies state.entities[..], log
    ensures Mirrors(state, Cleared(old(Slots(state))))
    ensures log.events == old(log.events) + ClearedEvents(old(Slots(state)))
  {
    ghost var slots := Slots(state);
    ghost var start := log.events;
    ghost var cur := slots;
    var i := 0;
    while i < MAX_ENTITIES
      invariant i <= MAX_ENTITIES && |cur| == |slots| == MAX_ENTITIES && Mirrors(state, cur)
      invariant forall j :: 0 <= j < i ==> cur[j] == slots[j].(id := NO_ID)
      invariant forall j :: i <= j < MAX_ENTITIES ==> cur[j] == slots[j]
      invariant log.events == start + ClearedEvents(slots[..i])
    {
      ClearedEventsStep(start, log.events, slots, i);
      ClearSlot(state, log, i, cur);
      cur := cur[i := cur[i].(id := NO_ID)];
      i := i + 1;
    }
    assert slots[..i] == slots;
    assert cur == Cleared(slots);
  }

  /** A DEM_FullPacket (src/main.cpp) whose packet carries one
      svc_PacketEntities message: every entity is cleared first, then the message
      is handled, behind the first-packet gate, on the emptied slots. */
  method DumpFullPacket(gate: PacketGate, state: State, log: EventLog, m: PacketEntities) returns (o: Outcome)
    requires state.Valid()
    modifies gate, state.entities[..], log
    ensures !gate.first
    ensures old(gate.first) ==> && o == Pass && Mirrors(state, Cleared(old(Slots(state))))
                                && log.events == old(log.events) + ClearedEvents(old(Slots(state)))
    ensures !old(gate.first) ==>
              match TakePacket(old(CatalogOf(state)),
                               World(Cleared(old(Slots(state))), old(log.events) + ClearedEvents(old(Slots(state)))), m)
              case Ok(w) => o == Pass && Mirrors(state, w.slots) && log.events == w.events
              case Err(e) => o == Fail(e)
  {
    ghost var cat := CatalogOf(state);
    ghost var slots := Slots(state);
    ghost var start := World(Cleared(slots), log.events + ClearedEvents(slots));
    ClearEntities(state, log);
    assert Slots(state) == start.slots && log.events == start.events;
    assert CatalogOf(state) == cat;
    o := DumpPacketEntitiesAfterFirst(gate, state, log, m);
  }
}
