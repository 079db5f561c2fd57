# edith, modelled in Dafny

edith decodes game replays. A replay carries bit-packed protobuf payloads: send tables that describe entity classes, string tables (among them the instance baselines), and packet-entities messages that create, update and delete entities in a fixed pool of slots. This project models the decoding core of edith and proves what it computes:

- the bit reader (`src/bitstream.cpp`) and its variable-length integers;
- the two containers (`src/dictionary_list.h`, `src/resizable_array.h`);
- send-table compilation (`src/state.cpp`): exclusion, flattening and the priority-bucket swap loop;
- the property decoders (`src/property.cpp`), including integers, strings, arrays and 64-bit values;
- field-index lists and entity patching (`src/entity.cpp`), and the older prop-index decoder (`src/decoder.cpp`);
- the protocol driver of `src/edith.cpp` and of the earlier `src/main.cpp`: entity headers, enter/leave/delete/update over the slot pool with baseline-then-delta creation, string-table updates with the 32-key history, class-info linking, the first-packet skip and `clear_entities`.

Each decoder is a pure function over a `Reader` (the buffer's bits and a bit position) returning `Result<Got<T>>`: the value and the reader after it, or the reason for failing. The program's own stateful objects are Dafny classes — `Bitstream`, `DictionaryList`, `ResizableArray`, `StringTable`, `State`, `Entity`, `Decoder`, the visitor as an `EventLog` — whose methods run the source's loops and are proved to agree with those functions. A failed `XASSERT`/`XERROR` becomes an `Err`/`Fail` outcome, and so does behaviour that C++ leaves undefined (an index out of range, a length never set). Three constructors, of `State`, `StringTable` and `ResizableArray`, state their XASSERT as a precondition instead, and the message handlers are given an existing `State`; see "Left out". Visitor callbacks are an appended event log. Both driver variants share one model; a `Variant` parameter or a separate gate captures where they differ.

Where the description of the system and the code disagree, the model follows the code:

- The priority bucketing of `compile_send_table` is not stable. Props not yet placed are permuted by the swaps (src/state.cpp:271-285).
- A ChangesOften prop with priority below 64 stays in its own bucket. Only one above 64 moves to bucket 64 (`Compiler.Key`, src/state.cpp:274-275).
- `gather_excludes` does not descend into DataTable props that are themselves Exclude-flagged (src/state.cpp:190-194).
- An existing string-table entry never has its value replaced, because the pointer the code tests is never set (src/edith.cpp:290,315-320).
- `src/entity.h` declares the properties as a name-keyed map, but `src/entity.cpp` indexes them as a vector. The model uses a sequence. The `in_table` field used by `src/edith.cpp:220` and `src/property.cpp:273` is modelled as the name of the holding table.

## Model

| member | source | states |
|---|---|---|
| Bits.BufferBit | src/bitstream.cpp:10-12 | bit k of the buffer is bit k mod 8 of byte k / 8, the layout the little-endian word copy gives |
| BitReader.Open | src/bitstream.cpp:7-9 | a new reader stands at bit 0 and its end is 8 times the byte length |
| BitReader.TakeBits | src/bitstream.cpp:35-52 | get_bits(n) succeeds exactly when n <= 32 and n bits remain (otherwise UnsupportedFeature or StreamOverrun); it then advances by exactly n and returns a value below 2^n |
| BitReader.TakeBitsReadsStream | src/bitstream.cpp:39-48 | the n low bits of what get_bits returns are the next n stream bits, in order |
| BitReader.TakeBitsRoundTrip | src/bitstream.cpp:35-52 | a value below 2^n laid at any bit position reads back, with the cursor n bits on |
| BitReader.TakeBitsRoundTripPacked | src/bitstream.cpp:35-52 | for every value and alignment there is a byte buffer from which get_bits reads it back |
| BitReader.MaskAsWritten | src/bitstream.cpp:47 | the mask `(1 << n) - 1` as x86 computes it: 2^n - 1 below 32, and 0 for n == 32 |
| BitReader.TakeBitsAsWritten | src/bitstream.cpp:35-52 | get_bits as written, masking with MaskAsWritten: equal to TakeBits for n < 32; a 32-bit read returns 0 |
| BitReader.FullWidthReadDropped | src/bitstream.cpp:47-48 | a 32-bit read whose first bit is set is non-zero in TakeBits but 0 as written |
| BitReader.TakeBytes | src/bitstream.cpp:54-71 | read_bits(len) fails exactly when fewer than len bits remain; otherwise it consumes exactly len bits and yields len / 8 full bytes plus one partial byte when len mod 8 != 0 |
| BitReader.ByteRunAt | src/bitstream.cpp:63-66 | full byte k of a read_bits result holds stream bits pos + 8k .. pos + 8k + 7 |
| BitReader.ReadBytesRoundTrip | src/bitstream.cpp:54-71 | whole bytes laid at any bit position are what read_bits returns for them |
| BitReader.ReadBytesAligned | src/bitstream.cpp:54-71 | on a byte boundary read_bits copies the buffer's bytes |
| BitReader.CStringFrom | src/bitstream.cpp:74-80 | the bytes read until a zero byte or until the budget runs out, always ending with a zero; 8 bits per byte read |
| BitReader.CStringStopsAtZero | src/bitstream.cpp:77-79 | the only zero byte in the buffer is the last one |
| BitReader.TakeCString | src/bitstream.cpp:73-83 | read_string(buffer, size) leaves a zero-terminated buffer of at most size bytes and consumes 8 bits per byte read (size - 1 bytes when no zero byte comes) |
| BitReader.CStringRoundTrip | src/bitstream.cpp:73-83 | a zero-terminated string shorter than the budget reads back exactly, at any alignment |
| BitReader.Var35Consumes | src/bitstream.cpp:90-98 | the do-while reads between one byte and the bytes its remaining groups allow |
| BitReader.Var35From | src/bitstream.cpp:90-98 | the remaining passes of the do-while keep the buffer and move the cursor forward |
| BitReader.Var35WholeBytes | src/bitstream.cpp:90-98 | every pass reads one whole byte, so the cursor moves by a multiple of 8 bits |
| BitReader.TakeVar35 | src/bitstream.cpp:85-101 | read_var_35 consumes between 8 and 40 bits and keeps the buffer |
| BitReader.Var35Total | src/bitstream.cpp:90-98 | with 40 bits left, read_var_35 cannot fail |
| BitReader.Var35StopsAfterFive | src/bitstream.cpp:98 | after four groups with the high bit set, the fifth group ends the read whatever its high bit: exactly 40 bits |
| BitReader.Var35RoundTrip | src/bitstream.cpp:85-101 | every 32-bit value written in base 128 (low group first) reads back, at any alignment, consuming exactly its encoding |
| BitReader.Var35RoundTripAligned | src/bitstream.cpp:85-101 | a buffer that starts with that encoding reads it back from bit 0 |
| BitReader.TakeVarUint | src/bitstream.cpp:103-115 | read_var_uint fails at end of stream and keeps the buffer |
| BitReader.VarUintShape | src/bitstream.cpp:106-112 | bits 4-5 of the 6-bit head select 0, 4, 8 or 28 more bits; the result keeps the head's low nibble, holds the extension above it and fits in 4 plus the extension's width |
| BitReader.VarUintRoundTrip | src/bitstream.cpp:103-115 | every 32-bit value reads back from its smallest width class (6, 10, 14 or 34 bits), at any alignment |
| BitReader.VarUintRoundTripPacked | src/bitstream.cpp:103-115 | every value's encoding can be laid out in a byte buffer at every alignment and read back |
| BitReader.Bitstream.constructor | src/bitstream.cpp:7-13 | a new stream views its bytes from bit 0 |
| BitReader.Bitstream.IsEof | src/bitstream.cpp:19-21 | eof() holds exactly when the position has reached the end |
| BitReader.Bitstream.GetBits | src/bitstream.cpp:35-52 | the result and the new position are those of TakeBits |
| BitReader.Bitstream.ReadBits | src/bitstream.cpp:54-71 | the bytes the loop stores and the new position are those of TakeBytes |
| BitReader.Bitstream.ReadString | src/bitstream.cpp:73-83 | the buffer the loop fills and the new position are those of TakeCString |
| BitReader.Bitstream.ReadVar35 | src/bitstream.cpp:85-101 | the do-while's value and the new position are those of TakeVar35 |
| BitReader.Bitstream.ReadVarUint | src/bitstream.cpp:103-115 | the result and the new position are those of TakeVarUint |
| BitReader.Bitstream.ReadHeadExtension | src/bitstream.cpp:106-112 | the head-and-extension read agrees with TakeHeadExtension |
| BitReader.TakeHeadExtension | src/bitstream.cpp:106-112 | the six head bits are read first; their low four bits are the low four bits of the value, and the cursor moves past the head and the extension that the head's upper two bits select |
| Dictionaries.IndexOfHasKey | src/dictionary_list.h:125-126 | a key is in the dictionary a run of add builds exactly when some added element carries it |
| Dictionaries.IndexOfIsLast | src/dictionary_list.h:125-126 | the position recorded for a key holds an element with that key, and no later element carries it |
| Dictionaries.Find | src/dictionary_list.h:156-163 | a by-key lookup succeeds exactly when some element carries the key, and then yields the last such element |
| Dictionaries.DictionaryList.constructor | src/dictionary_list.h:89-90 | a new list is empty |
| Dictionaries.DictionaryList.Copy | src/dictionary_list.h:93-97 | the copy has the same elements, dictionary and count |
| Dictionaries.DictionaryList.Size | src/dictionary_list.h:116-118 | size() is the number of elements added |
| Dictionaries.DictionaryList.Add | src/dictionary_list.h:121-131 | add appends at position size(), grows the count by one, points the key at the new position (even when it was already present), returns the stored element and leaves every earlier position as it was |
| Dictionaries.DictionaryList.HasIndex | src/dictionary_list.h:134-136 | has(index) holds exactly when index < size() |
| Dictionaries.DictionaryList.HasKey | src/dictionary_list.h:139-141 | has(key) holds exactly when some added element carries the key |
| Dictionaries.DictionaryList.At | src/dictionary_list.h:144-153 | operator[](index) fails when index >= size() and otherwise yields the element at that position |
| Dictionaries.DictionaryList.Lookup | src/dictionary_list.h:156-163 | operator[](key) is Find: the last element added with the key, failing on an absent key |
| Dictionaries.DictionaryList.Iterate | src/dictionary_list.h:166-227 | iterating from begin() to end() visits exactly the elements, in insertion order |
| Resizable.GrownLengthSpec | src/resizable_array.h:115-123 | the length grow reaches is the least length at or above the requested minimum that lies a whole number of growth steps above the old length, and is the old length when that already suffices |
| Resizable.NoWrapTest | src/resizable_array.h:120 | the overflow guard `(I)(growth + length) > length` passes exactly when the 32-bit sum does not wrap |
| Resizable.ResizableArray.constructor | src/resizable_array.h:41-51 | a new buffer holds `length` default elements with the given growth; growth 0 is refused |
| Resizable.ResizableArray.Copy | src/resizable_array.h:64-77 | the copy is a fresh buffer with the same growth, length and elements |
| Resizable.ResizableArray.Move | src/resizable_array.h:54-61 | the new array takes over the old buffer and length, and the source is left empty |
| Resizable.ResizableArray.At | src/resizable_array.h:94-98 | reading index i succeeds exactly when i < length and yields the element stored there |
| Resizable.ResizableArray.Put | src/resizable_array.h:101-105 | writing index i succeeds exactly when i < length, changing that element alone; otherwise nothing changes |
| Resizable.ResizableArray.Grow | src/resizable_array.h:115-131 | grow succeeds exactly when no growth step wraps 32 bits; the new length is GrownLength and the old elements keep their positions in a fresh buffer |
| Resizable.ResizableArray.EnsureSpace | src/resizable_array.h:108-112 | an amount below the length changes nothing; otherwise it behaves as grow(amount) |
| Properties.PropName | src/property.cpp:273 | the reported name is the holding table's name, a dot, then the prop's name |
| Properties.ZigZag | src/property.cpp:13 | `(-(v & 1)) ^ (v >> 1)` read as an int32 is the zig-zag decoding of v: even codes are v/2, odd codes -(v+1)/2 |
| Properties.ZigZagRoundTrip | src/property.cpp:12-13 | zig-zag decoding inverts the zig-zag encoding of every int32 |
| Properties.FlipThenSubtract | src/property.cpp:17-20 | flipping the top bit of an n-bit field and subtracting it again yields the field's two's-complement value |
| Properties.SignExtend | src/property.cpp:16-20 | with the unsigned flag the field is returned unchanged; otherwise its int32 reading is the two's-complement value of the num_bits-bit field |
| Properties.TakeInt | src/property.cpp:7-22 | tickcount encoding reads a var-35 value, zig-zag decoded unless unsigned; otherwise it succeeds exactly when 1 <= num_bits <= 32 bits remain, consumes num_bits bits and sign-extends unless unsigned |
| Properties.TakeCoordTail | src/property.cpp:29-37 | a sign bit, 14 bits of integer part plus one when the integer flag is set, 5 bits of fraction when the fraction flag is set; the parts present are exactly the flags set |
| Properties.TakeCoord | src/property.cpp:24-50 | two clear flags give zero after two bits; otherwise the tail follows and at least one part is present |
| Properties.CoordMpIntegralAsWritten | src/property.cpp:83-87 | the integral coord-MP value computed in uint32 is the intended value wrapped modulo 2^32 |
| Properties.CoordMpNegationWraps | src/property.cpp:83-84 | every odd code yields a uint32 of at least 2^31 instead of the small negative value it encodes |
| Properties.CoordMpIntegralCounterexample | src/property.cpp:83-89 | code 1 stands for -1 but the code as written yields 0xFFFFFFFF |
| Properties.CoordMpPositiveAgrees | src/property.cpp:85-87 | even codes need no wrap-around and agree with the intended value |
| Properties.CoordMpIntegralValue | src/property.cpp:83-87 | the intended integral coord-MP value is never 0, negative exactly for odd codes, and of magnitude v/2 + 1 |
| Properties.TakeCoordMp | src/property.cpp:58-94 | the none and low-precision types fail; the integral type gives 0 after two bits when b is clear, and otherwise a non-zero value decoded from 12 bits (the 15-bit branch is unreachable) |
| Properties.TakeCellCoord | src/property.cpp:119-146 | consumes `bits` bits of integer part plus 5 (3 at low precision, none when integral) bits of fraction |
| Properties.TakeFloat | src/property.cpp:148-176 | the first flag present picks the encoding: coord reads a coord, coord-MP and its low-precision variant fail, coord-MP-integral reads the integral coord-MP value; the stream only moves forward |
| Properties.TakeVector | src/property.cpp:178-199 | a vector's z is derived from a sign bit exactly when the prop is a normal, and is read as a third float otherwise |
| Properties.TakeVectorXY | src/property.cpp:201-204 | two floats, read one after the other |
| Properties.TakeStringProp | src/property.cpp:206-213 | a 9-bit length, below the 0x200 maximum, then that many bytes; only an overrun fails |
| Properties.BitLengthIsLeast | src/property.cpp:215-225 | the number of shifts that empty n is the least b with n < 2^b |
| Properties.BitLengthBound | src/property.cpp:215-225 | a value below 2^k has at most k binary digits |
| Properties.BitLength | src/property.cpp:215-225 | the number of shifts that empty n leaves n below 2^b and is at most n |
| Properties.ArrayLengthBits | src/property.cpp:215-225 | get_array_length_bits returns the bit length of num_elements: at most 32, with num_elements < 2^bits and 2^(bits-1) <= num_elements |
| Properties.TakeElements | src/property.cpp:236-238 | decodes exactly `count` elements and only moves the stream forward |
| Properties.TakeArray | src/property.cpp:227-239 | fails without an element descriptor; otherwise reads a count of BitLength(num_elements) bits and exactly that many elements of the descriptor's type |
| Properties.ArrayHasCount | src/property.cpp:229-238 | the element count is the count field's value, below 2^BitLength(num_elements) and so possibly above num_elements; num_elements 0 always gives an empty array |
| Properties.TakeInt64Words | src/property.cpp:258-266 | a 32-bit high word and a `second_bits` low word joined as (a << 32) \| b and negated modulo 2^64 when the sign was set |
| Properties.Int64Of | src/property.cpp:260-264 | the joined value has a as its high and b as its low word; a negated one adds up with them to 0 modulo 2^64 |
| Properties.Int64Width | src/property.cpp:246-256 | the second word's width is num_bits - 32 (less one when signed) and passes the width check exactly when num_bits is at least 32 (33 when signed); smaller widths wrap around |
| Properties.TakeInt64 | src/property.cpp:241-268 | tickcount encoding fails; a success consumes exactly num_bits bits, with 32 <= num_bits <= 64 for an unsigned prop and 33 <= num_bits <= 65 for a signed one |
| Properties.TakeProp | src/property.cpp:270-306 | decodes by the prop's type, only moving the stream forward; a data-table or unknown type fails |
| Properties.PropKind | src/property.cpp:275-300 | the decoded value is the Property subclass of the prop's type |
| Properties.ReadInt | src/property.cpp:7-22 | read_int on the stream agrees with TakeInt, in value and in where the stream is left |
| Properties.ReadFloatCoord | src/property.cpp:24-50 | read_float_coord on the stream agrees with TakeCoord |
| Properties.ReadCoordTail | src/property.cpp:29-37 | the sign and parts read on the stream agree with TakeCoordTail |
| Properties.ReadFloatCoordMp | src/property.cpp:58-94 | read_float_coord_mp on the stream agrees with TakeCoordMp |
| Properties.ReadFloatCellCoord | src/property.cpp:119-146 | read_float_cell_coord on the stream agrees with TakeCellCoord |
| Properties.ReadFloat | src/property.cpp:148-176 | read_float on the stream agrees with TakeFloat |
| Properties.ReadVector | src/property.cpp:178-199 | read_vector on the stream agrees with TakeVector |
| Properties.ReadVectorXY | src/property.cpp:201-204 | read_vector_xy on the stream agrees with TakeVectorXY |
| Properties.ReadStringProp | src/property.cpp:206-213 | read_string on the stream agrees with TakeStringProp |
| Properties.ReadElements | src/property.cpp:235-238 | the element loop on the stream agrees with TakeElements |
| Properties.ReadArray | src/property.cpp:227-239 | read_array on the stream agrees with TakeArray |
| Properties.ReadInt64Words | src/property.cpp:258-266 | the two words read on the stream agree with TakeInt64Words |
| Properties.ReadInt64 | src/property.cpp:241-268 | read_int64 on the stream agrees with TakeInt64 |
| Properties.ReadProp | src/property.cpp:270-306 | read_prop on the stream agrees with TakeProp and reports PropName as the name |
| Compiler.GatherExcludes | src/state.cpp:186-196 | the excluded set gains the name of every Exclude prop of the table, and nothing that is not the name of an Exclude prop of the table or of some known table |
| Compiler.UnknownTableFails | src/state.cpp:192-193 | a non-excluded DataTable prop naming no known table makes the walk fail, as the by-name lookup does |
| Compiler.NestedExcluded | src/state.cpp:193 | the props excluded by a table found by name are among those excluded anywhere |
| Compiler.ExcludesShift | src/state.cpp:186-196 | gather_excludes only inserts: the walk from a given set succeeds exactly when the walk from the empty set does, and yields the given set plus what that walk collects |
| Compiler.ExcludesStep | src/state.cpp:187-195 | one prop of the walk: an Exclude prop adds its name; a DataTable prop that is not excluded is descended into and its table's exclusions are added, and a failure there fails the walk; any other prop adds nothing |
| Compiler.ExcludesSucceed | src/state.cpp:186-196 | the walk succeeds exactly when every non-excluded DataTable prop names a known table whose own walk succeeds |
| Compiler.ExcludesCollectNested | src/state.cpp:191-193 | the exclusions of every nested table that is not itself Exclude-flagged are collected |
| Compiler.ExcludesCollectOnly | src/state.cpp:186-196 | every collected name was in the starting set, names an Exclude prop of the table, or was collected in a nested table that is not Exclude-flagged |
| Compiler.ExcludedTablesNotDescended | src/state.cpp:189-193 | when every DataTable prop is Exclude-flagged no nested table is visited, even one that is not known: the result is the starting set plus the table's Exclude names |
| Compiler.Gather | src/state.cpp:198-225 | gather only appends, to a level's own props and to the flattened props, and only leaves; each appended prop comes from this table or from some known table and is not excluded there; every leaf of this table that is not excluded becomes an own prop |
| Compiler.GatherProp | src/state.cpp:202-223 | a prop inside an array or excluded leaves everything unchanged; a non-excluded leaf is appended to the own props; a non-collapsible DataTable adds no own props; whatever is appended is a leaf from the prop or a known table that is not excluded there |
| Compiler.GatherPropOwn | src/state.cpp:204-223 | for a prop that is not a collapsible DataTable, the level's own props grow by exactly the prop when it is a non-excluded leaf |
| Compiler.GatherPropLeaf | src/state.cpp:204-223 | a prop that is not a DataTable is kept as an own prop exactly when it is not inside an array and not excluded, and nothing else changes |
| Compiler.GatherOwn | src/state.cpp:198-225 | without collapsible DataTables a level's own props are exactly the kept leaves of its table, in table order |
| Compiler.GatherLeaves | src/state.cpp:198-225 | a table with no DataTable props gathers exactly its kept props, leaving the flattened props alone |
| Compiler.BuildHierarchy | src/state.cpp:227-239 | build_hierarchy only appends leaves to the flattened props, each from the table or some known table and not excluded there, and every non-excluded leaf of the table is among them |
| Compiler.OwnPropsLast | src/state.cpp:231-236 | for a table with no collapsible DataTable prop only: the flattening ends with exactly the table's kept leaves, in table order; the general order is OwnPropsAfterNested |
| Compiler.Levels | src/state.cpp:198-236 | a reference account of a level's flattening without gather's accumulators: what its non-collapsible nested levels append, and its own props with every collapsible table's props spliced in, each in table order; both parts hold only leaves, and every non-excluded leaf of the table is an own prop |
| Compiler.PropLevels | src/state.cpp:204-223 | one prop's part of its level: nothing when inside an array or excluded; a non-excluded leaf as an own prop; a non-collapsible table's whole flattening ahead of the own props, adding no own prop |
| Compiler.GatherPropIsLevels | src/state.cpp:204-223 | gather's step for one prop adds exactly the prop's reference part to the own props and to the flattened props, and fails exactly when the reference does |
| Compiler.GatherIsLevels | src/state.cpp:198-225 | gather adds exactly the level's reference parts to the own props and the flattened props, and fails with the same error as the reference |
| Compiler.BuildHierarchyIsLevels | src/state.cpp:227-239 | build_hierarchy yields the flattened props so far, then what the nested levels appended, then the level's own props; it fails exactly when the reference does |
| Compiler.OwnPropsAfterNested | src/state.cpp:231-236 | for any table, the result splits at one point: before it, the props so far and what the non-collapsible nested levels appended; after it, the own props, holding every non-excluded leaf of the table |
| Compiler.LevelsSplice | src/state.cpp:210-220 | a collapsible table's own props join the level's own props and its nested part joins the level's nested part; the whole flattening of a non-collapsible table joins the nested part |
| Compiler.LeafTableFlattens | src/state.cpp:227-239 | a table without DataTable props flattens to the props so far followed by its kept props |
| Compiler.Hierarchy | src/state.cpp:241-246 | a flattened table holds only leaves: nothing inside an array and no DataTable |
| Compiler.HierarchyKeeps | src/state.cpp:241-246 | when the table flattens, its exclusions were collected, every flattened prop comes from the table or a known table and is not excluded there, and every non-excluded leaf of the table is flattened |
| Compiler.HierarchyDropsExcluded | src/state.cpp:186-204 | a prop named by an Exclude prop of the table (its table name and var name) is never taken from the table it names |
| Compiler.Key | src/state.cpp:274-275 | the bucket key is the priority, except that a ChangesOften prop with priority above 64 goes to bucket 64; it never exceeds the priority |
| Compiler.InBucketIsKey | src/state.cpp:274-275 | among props not yet placed, the pass for a bucket swaps exactly those whose bucket key (priority, or 64 for a ChangesOften prop above 64) is that bucket |
| Compiler.Ascending | src/state.cpp:263 | sorting the distinct priorities gives each of them once, in strictly increasing order |
| Compiler.CollectPriorities | src/state.cpp:248-261 | the priorities vector starts with 64, holds no value twice and holds exactly 64 and every priority of the flattened props |
| Compiler.SwapPermutes | src/state.cpp:276-278 | swapping two entries keeps the multiset of props |
| Compiler.PassStep | src/state.cpp:271-285 | one step of a bucket pass keeps the partition: a prop of the bucket is swapped to the hole, others are left where they are, and nothing is lost |
| Compiler.BucketPass | src/state.cpp:269-285 | a bucket pass permutes the props, leaves the placed prefix alone, and ends with the bucket's props right after it followed by props of later buckets |
| Compiler.PassVisit | src/state.cpp:272-284 | visiting one prop advances the hole exactly when it belongs to the bucket, keeping the partition and the multiset |
| Compiler.Exhausted | src/state.cpp:266 | once the last bucket is done no prop is left unplaced |
| Compiler.PassAdvances | src/state.cpp:266-286 | after each pass the placed prefix is no shorter, still ordered by bucket key, and everything after it belongs to a later bucket |
| Compiler.Reorder | src/state.cpp:265-286 | the bucket passes leave a permutation of the flattened props ordered by bucket key |
| States.Log2 | src/state.cpp:10-22 | log2 fails exactly for 0 and otherwise returns the least r with 2^r >= n, at most 32 |
| States.CeilLog2IsBitLength | src/state.cpp:10-22 | log2(n) is the bit length of n - 1, so the least such exponent is unique |
| States.StringTable.constructor | src/state.cpp:107-117 | a new table keeps its parameters, has no entries, and its entry id width is log2(max_entries) |
| States.StringTable.Contains | src/state.cpp:119-121 | contains(key) holds exactly when some entry has the key |
| States.StringTable.Get | src/state.cpp:127-129 | get(i) succeeds exactly when i < count() and yields the i-th entry |
| States.StringTable.Count | src/state.cpp:123-125 | count() is 0 exactly when the table contains no key |
| States.StringTable.GetKey | src/state.cpp:131-133 | get(key) succeeds exactly when the key is present and yields an entry of the table with that key |
| States.StringTable.Put | src/state.cpp:135-140 | put fails on a key already present and leaves the entries alone; otherwise it appends the entry, which get(key) and get(count() - 1) then return |
| States.OrderByBucket | src/state.cpp:248-286 | the ordering step returns a permutation of the flattened props ordered by bucket key |
| States.State.constructor | src/state.cpp:142-146 | a new state has no tables or classes, and every one of the MAX_ENTITIES slots is a distinct empty entity |
| States.State.ServerInfo | src/edith.cpp:200-204 | the server info creates the state exactly when none exists yet and max_classes is at least 1 (log2 of 0 fails); the new state keeps max_classes and holds no tables or classes |
| States.State.CreateClass | src/state.cpp:152-156 | create_class appends the class and returns it, changing nothing else |
| States.State.CreateSendTable | src/edith.cpp:44-66 | create_send_table appends a table of that name and decoder flag holding the message's props in order, changing nothing else |
| States.State.HasStringTable | src/state.cpp:165 | a string table of that name exists exactly when one was created under it |
| States.State.CreateStringTable | src/state.cpp:162-170 | fails on a name already present and, through log2, on max_entries 0; otherwise appends a fresh empty table with the given parameters, changing nothing else |
| States.State.GetClass | src/state.cpp:172-176 | get_class(i) succeeds exactly when i is below the number of classes and yields the i-th |
| States.State.GetStringTable | src/state.cpp:178-180 | get_string_table(i) succeeds exactly when i is below the number of tables and yields the i-th |
| States.State.GetStringTableNamed | src/state.cpp:182-184 | get_string_table(name) succeeds exactly when a table has the name and yields such a table |
| States.State.FlatSendTableNamed | src/edith.cpp:134 | looking up a compiled table by name succeeds exactly when one has the name and yields such a table |
| States.State.CompileSendTable | src/state.cpp:241-293 | succeeds exactly when the table flattens; then it appends one compiled table of the same name holding a permutation of the flattened props ordered by bucket key; nothing else changes |
| States.State.CompileSendTables | src/state.cpp:295-301 | succeeds exactly when every send table flattens, and then appends one compiled table per send table, in arrival order |
| Entities.TakeFieldNumber | src/entity.cpp:22-35 | a set flag bit moves to the field after `last` (modulo 2^32) in one bit; otherwise a var-35 value follows, and the stream only moves forward |
| Entities.TakeFieldStep | src/entity.cpp:23-33 | the step read_field_number moves by is 1 for a set flag, v + 1 for any other var-35 value v, and the end for 0x3FFF; a step lies in [1, 2^32] |
| Entities.FieldNumberSteps | src/entity.cpp:22-35 | read_field_number adds the step to the last field modulo 2^32 and yields 0xFFFFFFFF for the end code, consuming exactly the step's bits |
| Entities.FieldsAfter | src/entity.cpp:41-45 | the fields listed after `last` never include the end marker, and are empty exactly when `last` is the end marker |
| Entities.TakeFieldList | src/entity.cpp:37-46 | read_field_list consumes at least one bit and lists field numbers up to, not including, the end marker |
| Entities.LeadingIncrementIsZero | src/entity.cpp:38-39 | the list starts from -1, so a leading set flag bit yields field 0 |
| Entities.WideFieldsAfter | src/entity.cpp:41-45 | the unbounded running sums from `last` on start with `last` and are never empty |
| Entities.WideFieldsIncrease | src/entity.cpp:41-45 | every step is at least one, so the unbounded field numbers strictly increase |
| Entities.FieldsAfterIsWide | src/entity.cpp:41-45 | while the running sums stay below 2^32 - 1, the uint32 list is exactly the unbounded one, ending at the same position |
| Entities.FieldListIncreases | src/entity.cpp:37-46 | while no running sum from -1 reaches 2^32 - 1, read_field_list yields exactly the unbounded list, which strictly increases |
| Entities.WrapFromNoId | src/entity.cpp:38 | the first step s from -1 stored in a uint32 gives field s - 1 |
| Entities.Patch | src/entity.cpp:52-59 | each listed slot ends up holding a value of its prop's kind, every slot not listed is unchanged, and every listed index is within the props and the slots |
| Entities.TakeUpdate | src/entity.cpp:48-60 | update reads the field list and then patches; the number of slots is kept and the stream moves forward |
| Entities.DecodeFields | src/entity.cpp:52-59 | one value per listed field, decoded in list order, each of its prop's kind and for an index within the props and the slots; the first is the prop read at the start |
| Entities.WrittenLastWins | src/entity.cpp:52-59 | writing the decoded values in list order leaves at each listed slot the value of its last listing, and every unlisted slot unchanged |
| Entities.PatchDecodesThenWrites | src/entity.cpp:52-59 | patching succeeds exactly when the listed fields decode, and then writes those values in list order |
| Entities.UpdateWrites | src/entity.cpp:48-60 | a successful update reads the field list, decodes one value per field, writes each listed slot with the value of its last listing and keeps every unlisted slot |
| Entities.EndMarkerLeavesSlots | src/entity.cpp:48-60 | a field list that is only the end marker (a clear flag, then 0x3FFF) leaves every slot as it was and consumes 17 bits |
| Entities.Entity.constructor | src/entity.cpp:9-10 | an empty slot has id -1, no class, no table and no properties |
| Entities.Entity.Assign | src/entity.cpp:12-20 | the slot takes the id, class and table, with one empty property per prop of the table |
| Entities.Entity.Update | src/entity.cpp:48-60 | update keeps the id, class and table and patches the properties exactly as TakeUpdate says, or fails with its error |
| Entities.ReadFieldNumber | src/entity.cpp:22-35 | read_field_number on the stream agrees with TakeFieldNumber |
| Entities.ReadFieldList | src/entity.cpp:37-46 | read_field_list on the stream agrees with TakeFieldList |
| Decoders.NextIndex | src/decoder.cpp:21 | the next index is last + v + 1 exactly when that fits an int, and exceeds `last` exactly then; an overflowing sum does not exceed `last` |
| Decoders.TakeNextPropI | src/decoder.cpp:13-27 | reading after the end fails; a clear bit returns -1 and sets the end flag; otherwise the new index lies in [0, 4096] and becomes the last index |
| Decoders.IndicesIncrease | src/decoder.cpp:16-24 | an index follows a set bit and a var-uint delta, and exceeds the previous one exactly when the delta does not overflow an int |
| Decoders.Decoder.constructor | src/decoder.cpp:7-8 | a new decoder is not at the end and its last index is -1 |
| Decoders.Decoder.ReadNextPropI | src/decoder.cpp:13-27 | read_next_prop_i on the stream agrees with TakeNextPropI in index, new state and stream position |
| VarInts.VarIntFrom | src/edith.cpp:32-39 | each pass of the do-while reads one byte below the limit and the read ends after at most five bytes, past the start offset |
| VarInts.ReadVarIntAsWritten | src/edith.cpp:27-42 | as written, the read may end one byte past the message, on the terminating zero |
| VarInts.ReadVarInt | src/edith.cpp:27-42 | with the intended bound, every byte read lies in the message and there are at most five of them |
| VarInts.WiderLimitAgrees | src/edith.cpp:34 | a looser limit changes nothing for a read that succeeds under the tighter one |
| VarInts.AsWrittenAgreesInside | src/edith.cpp:34 | wherever the bounded read succeeds, the code as written returns the same value and offset |
| VarInts.TruncatedIntegerAccepted | src/edith.cpp:34-36 | the one-byte message 0x80 is accepted as written, yielding 0 at offset 2 past the message, while the bounded read reports the premature end |
| VarInts.VarIntRoundTripFrom | src/edith.cpp:32-39 | from the count-th byte on, a base-128 encoding adds its value at weight 7 * count and ends right after itself |
| VarInts.VarIntStep | src/edith.cpp:36-39 | one byte with its high bit set continues the read; one without ends it, adding its low seven bits |
| VarInts.VarIntRoundTrip | src/edith.cpp:27-42 | the bounded read returns every 32-bit value written in base 128 inside the message, stopping right after its encoding |
| VarInts.ScanVarInt | src/edith.cpp:27-42 | the do-while loop computes exactly the bounded read |
| StringUpdates.UpToNul | src/edith.cpp:278-287 | the string kept from a buffer is its longest zero-free prefix |
| StringUpdates.UpToNulAfterPrefix | src/edith.cpp:242-244 | a copied zero-free prefix stays whole in front of the string read after it |
| StringUpdates.TakeKey | src/edith.cpp:232-249 | a key is zero-free and moves the stream forward; with the table's leading bit set a further bit precedes it and must be clear |
| StringUpdates.TakeSubstringKey | src/edith.cpp:239-244 | a substring key names an entry of the history and a length within that key, and starts with that many of its bytes |
| StringUpdates.TakeCopiedKey | src/edith.cpp:242-244 | a key read after copied bytes is zero-free and starts with the copied bytes when they are zero-free |
| StringUpdates.Remember | src/edith.cpp:283-287 | the history gains the key as its newest entry and keeps the newest 32 keys |
| StringUpdates.TakeValue | src/edith.cpp:294-306 | a value is shorter than 0x4000 bytes and fits the value buffer; without ST_FixedLength it is exactly its 14-bit length in bytes |
| StringUpdates.NewValue | src/edith.cpp:324 | a new entry stores the value's announced length of bytes when they were read; without a value the complete decoder stores the empty value and the early one fails |
| StringUpdates.Apply | src/edith.cpp:308-325 | an existing id succeeds exactly when no key was read or the keys match, and changes nothing; a new id appends one entry, and only with a key not yet in the table; entries are never removed and keys stay distinct |
| StringUpdates.DistinctAppend | src/state.cpp:135-140 | an entry whose key is new keeps the keys distinct |
| StringUpdates.TakeOptionalKey | src/edith.cpp:277-288 | a set bit and a key, or a clear bit; either way the stream moves forward |
| StringUpdates.TakeOptionalValue | src/edith.cpp:294-306 | a set bit and a value, or a clear bit; either way the stream moves forward |
| StringUpdates.TakeEntryId | src/edith.cpp:267-273 | the id is either explicit or the last id plus one in uint32, and must lie below max_entries |
| StringUpdates.TakeEntry | src/edith.cpp:266-328 | one entry moves the stream forward, keeps the id below max_entries and the history within 32 keys, grows the table by at most one entry and keeps keys distinct |
| StringUpdates.TakeEntries | src/edith.cpp:266-328 | the remaining entries only append, at most one per entry, and keep keys distinct |
| StringUpdates.DecodeUpdate | src/edith.cpp:251-329 | a table flagged ST_Something is left alone by the complete decoder; otherwise existing entries never change, at most one entry is added per entry read, and keys stay distinct |
| StringUpdates.ReadKey | src/edith.cpp:232-249 | reading a key on the stream agrees with TakeKey |
| StringUpdates.ReadSubstringKey | src/edith.cpp:239-244 | the substring form on the stream agrees with TakeSubstringKey |
| StringUpdates.ReadCopiedKey | src/edith.cpp:244 | the rest of a substring key on the stream agrees with TakeCopiedKey |
| StringUpdates.ReadValue | src/edith.cpp:295-305 | the value branch on the stream agrees with TakeValue |
| StringUpdates.ReadEntryId | src/edith.cpp:267-273 | the id branch on the stream agrees with TakeEntryId |
| StringUpdates.ReadOptionalKey | src/edith.cpp:277-288 | the optional key on the stream agrees with TakeOptionalKey |
| StringUpdates.ReadOptionalValue | src/edith.cpp:294-306 | the optional value on the stream agrees with TakeOptionalValue |
| StringUpdates.ApplyEntry | src/edith.cpp:308-325 | applying an entry to the table does what Apply says |
| StringUpdates.ReadEntry | src/edith.cpp:267-327 | one entry on the stream leaves the stream, table, history and id as TakeEntry computes |
| StringUpdates.ReadEntries | src/edith.cpp:264-328 | the entry loop leaves the table as TakeEntries computes, or fails with its error |
| StringUpdates.UpdateStringTable | src/edith.cpp:251-329 | update_string_table leaves the table's entries as DecodeUpdate says, or fails with its error |
| StringMessages.SettingsAsWritten | src/edith.cpp:334-336 | create_string_table as called: max_entries is passed right, and the flags parameter receives another field whenever the two differ |
| StringMessages.RotatedSettingsLoseSkipFlag | src/edith.cpp:334-338 | a table the server flags with 2 and sends no data for is decoded and overruns the empty stream as written, but is skipped when created with its own flags |
| StringMessages.HandleCreateStringTable | src/edith.cpp:331-339 | fails on a name already present or on max_entries 0; otherwise appends a table with the message's own settings and fills it as DecodeUpdate says (src/main.cpp decodes only the instance baseline table) |
| StringMessages.HandleUpdateStringTable | src/edith.cpp:341-347 | fails for an index past the last table; otherwise updates that table's entries as DecodeUpdate says (src/main.cpp only for the instance baseline table), and no other table changes |
| Packets.Digits | src/edith.cpp:93-94 | the decimal text of a number is non-empty, all digits, and starts with 0 only for 0 |
| Packets.DigitsRoundTrip | src/edith.cpp:93-94 | reading the printed digits back gives the number |
| Packets.DecimalTextInjective | src/edith.cpp:93-96 | two class ids never print to the same baseline key |
| Packets.DecimalText | src/edith.cpp:93-94 | `%d` of a class id read as a signed int: a minus sign exactly for ids of 2^31 and above, digits after it |
| Packets.BaselineFor | src/edith.cpp:88-97 | get_baseline_for succeeds exactly when the instance baseline table exists and has an entry keyed by the class id in decimal, and yields that entry's value |
| Packets.TakeEntityHeader | src/edith.cpp:99-125 | the id moves on by the read delta plus one in uint32, and the flags are one of none, enter, leave, or leave and delete |
| Packets.HeaderLength | src/edith.cpp:99-125 | a header takes at least eight bits |
| Packets.Fresh | src/entity.cpp:12-20 | a new entity has one empty property per prop of its table |
| Packets.TakeEnter | src/edith.cpp:127-151 | entering succeeds only for ids below 2048, moves the stream forward, and changes only the entered slot: it holds the id, a class and that class's compiled table, with a deletion event for an occupied slot before the creation event |
| Packets.EnterClass | src/edith.cpp:131-150 | after the class id and serial, the class, its table and its baseline are looked up and the slot is filled as Entered says |
| Packets.FillSlot | src/edith.cpp:136-150 | only the entered slot changes; it holds the id, class and table, with one property per prop; a deletion of an occupied slot comes before the creation event |
| Packets.TakeSpawn | src/edith.cpp:142-148 | the new entity has the id, class and table and one property per prop, patched from the baseline and then from the packet |
| Packets.SpawnLayers | src/edith.cpp:142-148 | a new entity holds the packet's value at every slot the packet lists, the baseline's value at a slot only the baseline lists, and nothing at a slot neither lists; the stream ends where the packet's values end |
| Packets.EmptyDeltaKeepsBaseline | src/edith.cpp:144-148 | when the packet's own field list is only the end marker, the entered entity holds exactly what its baseline sets, and 17 bits are consumed after the header fields |
| Packets.TakeEntityUpdate | src/edith.cpp:153-162 | an update succeeds exactly when the id names an occupied slot below MAX_ENTITIES and its patch decodes; only that slot's properties change, and an updated event follows |
| Packets.TakePacketEntry | src/edith.cpp:171-189 | one pass reads a header and moves to its id, only adding events and keeping the number of slots |
| Packets.TakeEntryBody | src/edith.cpp:174-186 | what follows a header only adds events and keeps the number of slots |
| Packets.LeaveKeepsWorld | src/edith.cpp:176-183 | a leave without the delete bit changes nothing in a delta packet and fails in a full update |
| Packets.LeaveDeleteEmptiesSlot | src/edith.cpp:179-183 | a leave with the delete bit reports the slot and resets its id, even when it was already empty; the rest of the slot stays |
| Packets.Delete | src/edith.cpp:179-183 | deleting reports the slot as it was, then sets its id to -1, keeping its class, table and properties and every other slot |
| Packets.TakeHeaders | src/edith.cpp:171-189 | the header loop only adds events and takes at least eight bits per header |
| Packets.TakeDeletions | src/edith.cpp:191-197 | the trailing deletions only reset ids, and every event they add is a deletion |
| Packets.TakePacket | src/edith.cpp:164-198 | a decoded packet only adds events, keeps the slot pool, and announces no more headers than its data has bytes |
| Packets.Cleared | src/main.cpp:342-351 | clearing resets every slot's id and nothing else |
| Packets.ClearedEvents | src/main.cpp:342-351 | clear_entities makes one callback per occupied slot |
| Packets.ClearedEventsReportOccupied | src/main.cpp:345-348 | each callback of clear_entities is a deletion reporting an occupied slot |
| PacketDriver.EventLog.constructor | src/edith.cpp:164 | a new visitor has seen nothing |
| PacketDriver.EventLog.VisitCreated | src/edith.cpp:150 | the created callback records the entity as it is at that moment |
| PacketDriver.EventLog.VisitUpdated | src/edith.cpp:161 | the updated callback records the entity as it is at that moment |
| PacketDriver.EventLog.VisitDeleted | src/edith.cpp:139 | the deleted callback records the entity as it is at that moment |
| PacketDriver.ReadEntityHeader | src/edith.cpp:99-125 | read_entity_header on the stream agrees with TakeEntityHeader |
| PacketDriver.ReadEntityEnterPvs | src/edith.cpp:127-151 | read_entity_enter_pvs on the stream, the slots and the visitor does what TakeEnter says, or fails with its error |
| PacketDriver.PlaceEntity | src/edith.cpp:131-150 | the class and table lookups and the filling of the slot do what EnterClass says |
| PacketDriver.FillEntity | src/edith.cpp:136-150 | resetting, patching and reporting the entity do what FillSlot says |
| PacketDriver.SpawnAndReport | src/edith.cpp:145-150 | the two patches and the created callback do what TakeSpawn says, leaving every other slot alone |
| PacketDriver.ResetEntity | src/edith.cpp:136-142 | an occupied slot is reported deleted, then the slot becomes a fresh entity of the class and table; no other slot changes |
| PacketDriver.SpawnEntity | src/edith.cpp:145-148 | the baseline update and the packet update do what TakeSpawn says |
| PacketDriver.ReadEntityUpdate | src/edith.cpp:153-162 | read_entity_update on the stream, the slots and the visitor does what TakeEntityUpdate says |
| PacketDriver.DeleteEntity | src/edith.cpp:179-183 | the deleted callback, then the id reset, as Delete says |
| PacketDriver.ReadPacketEntry | src/edith.cpp:172-186 | one pass of the header loop does what TakePacketEntry says |
| PacketDriver.ReadEntryBody | src/edith.cpp:174-186 | enter, leave or update does what TakeEntryBody says |
| PacketDriver.HeadersStep | src/edith.cpp:171-189 | a failed entry fails the loop; a read one leaves it to go on from the next header at the new id |
| PacketDriver.ReadNextHeader | src/edith.cpp:171-189 | one loop pass keeps the loop's specification, leaving the catalog unchanged |
| PacketDriver.DrainDeletions | src/edith.cpp:191-197 | the trailing deletions on the stream and the slots do what TakeDeletions says |
| PacketDriver.ReadHeaders | src/edith.cpp:167-189 | the header loop from id -1 does what TakeHeaders says |
| PacketDriver.DumpPacketEntities | src/edith.cpp:164-198 | dump_SVC_PacketEntities leaves the slots and the visitor's log as TakePacket says, or fails with its error |
| PacketDriver.PacketGate.constructor | src/main.cpp:167 | the first-packet flag starts set |
| PacketDriver.DumpPacketEntitiesAfterFirst | src/main.cpp:165-206 | the first call changes nothing and clears the flag; every later call does what TakePacket says |
| PacketDriver.ClearSlot | src/main.cpp:344-349 | one slot is reported when occupied, then its id is reset |
| PacketDriver.ClearedEventsStep | src/main.cpp:343-350 | the callbacks of clear_entities extend by one slot at a time |
| PacketDriver.ClearEntities | src/main.cpp:342-351 | clear_entities reports every occupied slot in slot order and resets every id |
| PacketDriver.DumpFullPacket | src/main.cpp:413-418 | a full packet clears every entity, then handles its packet-entities message behind the first-packet gate on the cleared slots |
| ClassInfo.ClassesOf | src/edith.cpp:209-212 | one class per entry of the message, in message order |
| ClassInfo.LinkProps | src/edith.cpp:217-226 | linking keeps the number of props |
| ClassInfo.LinkPropsMeaning | src/edith.cpp:217-226 | linking fails exactly when the first prop is an array prop; otherwise each prop records its table and an array prop points at the linked prop before it |
| ClassInfo.ArrayPropIsPredecessor | src/edith.cpp:222-224 | an array prop's element descriptor is the prop before it, in the same table |
| ClassInfo.LinkPropsIdempotent | src/edith.cpp:214-227 | linking a second time gives what the first linking gave |
| ClassInfo.LinkTableProps | src/edith.cpp:217-226 | the prop loop computes LinkProps |
| ClassInfo.LinkTables | src/edith.cpp:214-227 | linking keeps the number of tables |
| ClassInfo.LinkTablesMeaning | src/edith.cpp:214-227 | linking all tables succeeds exactly when each table links, and then each is its own table linked |
| ClassInfo.LinkTablesFirstError | src/edith.cpp:223 | the first table that fails to link decides the error |
| ClassInfo.LinkTablesKeepsNames | src/edith.cpp:214-227 | linking keeps every table's name, decoder flag and number of props |
| ClassInfo.LinkSendTables | src/edith.cpp:214-227 | the table loop replaces the send tables with their linked forms, or fails with the first error, changing nothing else |
| ClassInfo.DumpClassInfo | src/edith.cpp:206-230 | dump_DEM_ClassInfo appends the message's classes, links the send tables, and compiles them: it succeeds exactly when every table links and flattens, appending one compiled table per send table |
| StringUpdates.ReadNext | src/edith.cpp:266-328 | one pass of the entry loop reads and applies entry number `read`, and the rest of the loop then reads from where it stopped with the new history and id |

## Left out

- `src/demo.cpp` and `src/demo.h` (file streams and Snappy decompression) are not part of this model: they are I/O and a foreign library.
- Protobuf parsing and dispatch (`dump`, `dump_DEM_Packet`, `dump_DEM_SendTables`, `main`, and the protobuf side of `dump_SVC_SendTable` and the `handle_SVC_*` wrappers) are not modelled, because the generated message types are not available. Messages are plain records (`CreateTable`, `PacketEntities`, `ClassEntry`), and `dump_SVC_SendTable` is `States.State.CreateSendTable` with the props already converted.
- Floating-point values are not computed: `read_float*`, `read_vector*` (sqrt) and `read_float_no_scale` are modelled by the raw fields and the bits they consume, and `src/value.cpp` is not part of this model.
- The visitors (`src/visitor.h` consumers that print CSV or log lines) are an appended event log; their output is not modelled.
- `src/debug.cpp`: printing and `exit` become an `Err`/`Fail` outcome carrying the reason.
- `src/convert.py` is not part of this model (a one-off file script).
- `shared_ptr` ownership, `swap`, `operator=` and the destructors are left out. So is the `DTProp` hierarchy that `build_hierarchy` records, which nothing reads while decoding.
- Compiler.GatherExcludes, Compiler.Gather, Compiler.BuildHierarchy: the recursion is bounded by a fuel of one level per known table. A nesting deeper than that repeats a table, which would overflow the C++ stack; the model reports it as an error instead of modelling the crash.
- States.OrderByBucket: states that the result is a permutation ordered by bucket key, not which permutation the swaps produce within a bucket.
- StringUpdates.TakeCopiedKey: states that the stream moves forward, not the exact number of bits the tail string takes (that is TakeCString's contract).
- PacketDriver.FillEntity, PacketDriver.ReadEntityEnterPvs: on failure the slot may already have been reset and reported, as in the source; the contracts say only which error is returned, not the partial state left behind.
- ClassInfo.DumpClassInfo, ClassInfo.LinkSendTables: on a link failure the tables before the failing one are already linked; the contract gives the error only.
- StringUpdates.UpdateStringTable, StringMessages.HandleUpdateStringTable: on failure the entries applied before the failing one stay; the contracts give the error only.
- Entities.Patch, Packets.TakeEntityUpdate: a field index past the table's props is undefined behaviour in C++ and an error here.
- States.State.constructor: requires max_classes of at least 1, where the source's log2 fails its XASSERT instead; the state is only built from the server info, and States.State.ServerInfo models that call with its failure for 0.
- Resizable.ResizableArray.constructor: requires a growth above 0, where the source fails its XASSERT instead; every use in the source takes the default growth of 64, so the failing case has no caller.
- States.StringTable.constructor: requires max_entries of at least 1, where the source's log2 fails its XASSERT instead (src/state.cpp:11); its only caller, States.State.CreateStringTable, reports max_entries 0 as an error before building the table.
- ClassInfo.DumpClassInfo, StringMessages.HandleCreateStringTable, StringMessages.HandleUpdateStringTable, PacketDriver.DumpPacketEntities, Packets.BaselineFor: take an existing `State` (or its catalogue), so the "no state" XASSERTs of src/edith.cpp:89,207,332,342 and their src/main.cpp copies are not modelled; only States.State.ServerInfo models the absent state.

## Findings

| source | as written | input that shows it | evidently intended | confidence | as-written member | corrected member |
|---|---|---|---|---|---|---|
| src/bitstream.cpp:47 | `(1 << n) - 1` with n == 32 shifts an int by its width; on x86 the mask becomes 0 and a 32-bit read returns 0 | get_bits(32) on a stream whose next bit is 1 | the full 32-bit value | not executed | BitReader.TakeBitsAsWritten, BitReader.FullWidthReadDropped | BitReader.TakeBits, BitReader.TakeBitsRoundTrip |
| src/property.cpp:83-89 | the negative integral coord-MP value is computed in uint32, so it becomes a value of at least 2^31 before the conversion to float | the 12-bit code 1, which yields 0xFFFFFFFF | -1, and in general -(v/2 + 1) for odd codes | not executed | Properties.CoordMpIntegralAsWritten, Properties.CoordMpIntegralCounterexample | Properties.TakeCoordMp |
| src/edith.cpp:34 (also src/main.cpp:35) | `*offset <= length` lets read_var_int read the terminating zero after the message, so an integer cut off at the end is accepted and the offset ends past the message | the one-byte message 0x80 | fail with "Premature end of stream." (`*offset < length`) | not executed | VarInts.ReadVarIntAsWritten, VarInts.TruncatedIntegerAccepted | VarInts.ReadVarInt, VarInts.VarIntRoundTrip |
| src/edith.cpp:334-336 (also src/main.cpp:321-323) | the message's flags, user_data_fixed_size, user_data_size and user_data_size_bits are passed to create_string_table in message order, each one parameter away from its own | flags 2, user_data_size_bits 0, no string data: the table is decoded and overruns the empty stream | each setting at its own parameter, so the table is skipped | not executed | StringMessages.SettingsAsWritten, StringMessages.RotatedSettingsLoseSkipFlag | StringMessages.HandleCreateStringTable |
