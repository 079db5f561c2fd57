/** The schema records of src/state.h: send-prop flags and types, send props, send
    tables, flattened send tables and entity classes. Float bounds (`low_value`,
    `high_value`) are not part of this model. */
module Schema {
  import opened Wrappers
  import opened Bits

  // SP_Flags (src/state.h:27-47): one bit each.
  const UNSIGNED: U32 := 0x1
  const COORD: U32 := 0x2
  const NO_SCALE: U32 := 0x4
  const NORMAL: U32 := 0x20
  const EXCLUDE: U32 := 0x40
  const INSIDE_ARRAY: U32 := 0x100
  const COLLAPSIBLE: U32 := 0x800
  const COORD_MP: U32 := 0x1000
  const COORD_MP_LOW_PRECISION: U32 := 0x2000
  const COORD_MP_INTEGRAL: U32 := 0x4000
  const CELL_COORD: U32 := 0x8000
  const CELL_COORD_LOW_PRECISION: U32 := 0x1_0000
  const CELL_COORD_INTEGRAL: U32 := 0x2_0000
  const CHANGES_OFTEN: U32 := 0x4_0000
  const ENCODED_AGAINST_TICKCOUNT: U32 := 0x8_0000

  /** `flags & flag` is non-zero, for a one-bit `flag`. */
  predicate Has(flags: U32, flag: U32)
    requires flag > 0
  {
    (flags / flag) % 2 == 1
  }

  /** SP_Types (src/state.h:49-58); any other wire value is kept as `Other`. */
  datatype PropType = Int | Float | Vector | VectorXY | String | Array | DataTable | Int64 | Other(code: int)

  /** A send prop. `arrayProp` is the element descriptor an array prop points to and
      `inTable` the name of the table holding the prop; both are filled in when class
      info arrives. */
  datatype SendProp = SendProp(
    kind: PropType,
    varName: string,
    flags: U32,
    priority: U32,
    dtName: string,
    numElements: U32,
    numBits: U32,
    arrayProp: Option<SendProp>,
    inTable: string)

  /** A send table: its name, whether it needs a decoder, and its props in order. */
  datatype SendTable = SendTable(name: string, needsDecoder: bool, props: seq<SendProp>)

  /** A compiled table: its name and the flattened, priority-ordered props. */
  datatype FlatSendTable = FlatSendTable(name: string, props: seq<SendProp>)

  /** An entity class: id, send-table name and network name. */
  datatype Class = Class(id: U32, dtName: string, name: string)

  /** The `GetKey` functors of src/state.h:91-95,198-214. */
  function TableName(t: SendTable): string {
    t.name
  }

  function FlatTableName(t: FlatSendTable): string {
    t.name
  }
}
