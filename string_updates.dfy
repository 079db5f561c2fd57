/** The string-table update decoder, update_string_table and read_string_table_key
    of src/edith.cpp, and the earlier update_string_table of src/main.cpp. The two
    differ in how keys are read and in what a new entry without a value gets, so
    the decoder takes the variant as a parameter; everything else is shared. */
module StringUpdates {
  import opened Wrappers
  import opened Bits
  import opened BitReader
  import opened Schema
  import opened States

  const INSTANCE_BASELINE_TABLE: string := "instancebaseline"
  const KEY_HISTORY_SIZE: nat := 32
  const MAX_KEY_SIZE: nat := 0x400
  const MAX_VALUE_SIZE: nat := 0x4000

  /** The entry id before the first entry: -1 as a uint32_t. */
  const NO_ENTRY: U32 := 0xFFFF_FFFF

  /** Which decoder: `Complete` is src/edith.cpp (substring keys against a key
      history, tables flagged ST_Something skipped, a new entry without a value
      gets the empty value); `Early` is src/main.cpp (substring keys refused, every
      table decoded, a new entry without a value reads an uninitialised length). */
  datatype Variant = Complete | Early

  /** What the decoder uses of a string table. */
  datatype TableShape = TableShape(flags: U32, maxEntries: U32, entryBits: nat, userDataSize: U32, userDataSizeBits: U32)

  function ShapeOf(t: StringTable): TableShape {
    TableShape(t.flags, t.maxEntries, t.entryBits, t.userDataSize, t.userDataSizeBits)
  }

  /** No two entries share a key. */
  predicate DistinctKeys(entries: seq<Entry>) {
    forall i, j :: 0 <= i < j < |entries| ==> entries[i].key != entries[j].key
  }

  // ------------------------------------------------------------------- keys

  /** std::string(buffer): the bytes before the first zero byte. */
  function UpToNul(buffer: Bytes): (s: Bytes)
    ensures |s| <= |buffer| && s == buffer[..|s|] && 0 !in s
    ensures |s| < |buffer| ==> buffer[|s|] == 0
  {
    if |buffer| == 0 || buffer[0] == 0 then []
    else
      var tail := UpToNul(buffer[1..]);
      assert buffer[1..][..|tail|] == buffer[1..|tail| + 1];
      [buffer[0]] + tail
  }

  /** One non-zero byte in front is kept in front. */
  lemma {:induction false} UpToNulCons(b: Byte, rest: Bytes)
    requires b != 0
    ensures UpToNul([b] + rest) == [b] + UpToNul(rest)
  {
    assert ([b] + rest)[1..] == rest;
  }

  /** A zero-free prefix is kept whole in front of the string that follows it. */
  lemma {:induction false} UpToNulAfterPrefix(prefix: Bytes, buffer: Bytes)
    requires 0 !in prefix
    ensures UpToNul(prefix + buffer) == prefix + UpToNul(buffer)
    decreases |prefix|
  {
    if |prefix| > 0 {
      assert prefix[0] in prefix;
      var rest := prefix[1..];
      assert 0 !in rest by {
        forall k | 0 <= k < |rest| ensures rest[k] != 0 {
          assert rest[k] == prefix[k + 1];
        }
      }
      assert prefix + buffer == [prefix[0]] + (rest + buffer);
      UpToNulCons(prefix[0], rest + buffer);
      UpToNulAfterPrefix(rest, buffer);
      assert prefix == [prefix[0]] + rest;
    } else {
      assert prefix + buffer == buffer;
    }
  }

  /** read_string_table_key. When the table's leading bit was set a further bit
      precedes every key, and a set one is refused. Then a substring bit: a
      substring key copies `from_length` bytes of `key_history[from_index]` (an
      index past the history, or a length past that key, reads memory the C++ never
      wrote) and reads the rest as a string of at most 0x400 - from_length bytes;
      otherwise the whole key is one string of at most 0x400 bytes. The variant of
      src/main.cpp refuses substring keys. */
  function TakeKey(r: Reader, variant: Variant, firstBit: U32, history: seq<Bytes>): (g: Result<Got<Bytes>>)
    ensures g.Ok? ==> g.value.rest.bits == r.bits && r.pos < g.value.rest.pos && 0 !in g.value.value
    ensures g.Ok? && firstBit != 0 ==> TakeBits(r, 1) == Ok(Got(0, r.(pos := r.pos + 1)))
  {
    var prefixed :- if firstBit != 0 then TakeBits(r, 1) else Ok(Got(0, r));
    if prefixed.value != 0 then
      Err(UnsupportedFeature(if variant.Complete? then "Not sure how to read this key" else "please no"))
    else
      var substring :- TakeBits(prefixed.rest, 1);
      if substring.value != 0 then
        if variant.Early? then Err(UnsupportedFeature("no substring"))
        else TakeSubstringKey(substring.rest, history)
      else
        var whole :- TakeCString(substring.rest, MAX_KEY_SIZE);
        Ok(Got(UpToNul(whole.value), whole.rest))
  }

  /** The substring form of a key: a 5-bit history index, a 5-bit length, the
      copied bytes and the string read after them. */
  function TakeSubstringKey(r: Reader, history: seq<Bytes>): (g: Result<Got<Bytes>>)
    ensures g.Ok? ==> g.value.rest.bits == r.bits && r.pos < g.value.rest.pos && 0 !in g.value.value
    ensures g.Ok? ==> TakeBits(r, 5).Ok? && TakeBits(TakeBits(r, 5).value.rest, 5).Ok?
    ensures g.Ok? ==>
              var index := TakeBits(r, 5).value;
              var length := TakeBits(index.rest, 5).value.value;
              && index.value < |history| && length <= |history[index.value]|
              && (0 !in history[index.value] ==> history[index.value][..length] <= g.value.value)
  {
    var index :- TakeBits(r, 5);
    var length :- TakeBits(index.rest, 5);
    if index.value >= |history| then Err(UndefinedBehaviour("key history index out of range"))
    else if length.value > |history[index.value]| then Err(UndefinedBehaviour("key bytes never written"))
    else
      ZeroFreePrefix(history[index.value], length.value);
      TakeCopiedKey(length.rest, history[index.value][..length.value])
  }

  /** A key that starts with `copied` bytes: the rest is a string of at most
      0x400 - |copied| bytes, and the key is what std::string keeps of both. */
  function TakeCopiedKey(r: Reader, copied: Bytes): (g: Result<Got<Bytes>>)
    requires |copied| < MAX_KEY_SIZE
    ensures g.Ok? ==> g.value.rest.bits == r.bits && r.pos <= g.value.rest.pos && 0 !in g.value.value
    ensures g.Ok? && 0 !in copied ==> copied <= g.value.value
  {
    var tail :- TakeCString(r, MAX_KEY_SIZE - |copied|);
    if 0 in copied then Ok(Got(UpToNul(copied + tail.value), tail.rest))
    else
      UpToNulAfterPrefix(copied, tail.value);
      Ok(Got(UpToNul(copied + tail.value), tail.rest))
  }

  /** The bytes copied from a zero-free key are zero-free. */
  lemma {:induction false} ZeroFreePrefix(key: Bytes, n: nat)
    requires n <= |key|
    ensures 0 !in key ==> 0 !in key[..n]
  {
    if 0 !in key {
      forall k | 0 <= k < n ensures key[..n][k] != 0 {
        assert key[..n][k] == key[k];
      }
    }
  }

  /** The key history after remembering `key`: the key is the newest, and before
      it stand the newest keys of the old history, the oldest dropped once 32 are
      held. */
  function Remember(history: seq<Bytes>, key: Bytes): (h: seq<Bytes>)
    requires |history| <= KEY_HISTORY_SIZE
    ensures |h| == (if |history| < KEY_HISTORY_SIZE then |history| + 1 else KEY_HISTORY_SIZE)
    ensures h[|h| - 1] == key && h[..|h| - 1] == history[|history| - (|h| - 1)..]
  {
    (if |history| == KEY_HISTORY_SIZE then history[1..] else history) + [key]
  }

  // ------------------------------------------------------------------- values

  /** A value as read: the length the entry would take, and the bytes read_bits
      stored. */
  datatype ValueRead = ValueRead(length: nat, bytes: Bytes)

  /** The value after a set value bit: with ST_FixedLength the table's
      user_data_size bytes in user_data_size_bits bits, otherwise a 14-bit byte
      length and 8 bits per byte. A length of 0x4000 or more is refused; a bit
      length past the 0x4000-byte buffer overruns it once the bits are there. */
  function TakeValue(r: Reader, shape: TableShape): (g: Result<Got<ValueRead>>)
    ensures g.Ok? ==> g.value.rest.bits == r.bits && r.pos <= g.value.rest.pos
    ensures g.Ok? ==> g.value.value.length < MAX_VALUE_SIZE && |g.value.value.bytes| <= MAX_VALUE_SIZE
    ensures g.Ok? && !Has(shape.flags, ST_FIXED_LENGTH) ==> |g.value.value.bytes| == g.value.value.length
  {
    var sized :- if Has(shape.flags, ST_FIXED_LENGTH) then Ok(Got((shape.userDataSize as nat, shape.userDataSizeBits as nat), r))
                 else
                   var n :- TakeBits(r, 14);
                   Ok(Got((n.value as nat, 8 * n.value), n.rest));
    var (length, bitLength) := sized.value;
    if length >= MAX_VALUE_SIZE then Err(FormatViolation("Message too long."))
    else
      var bytes :- TakeBytes(sized.rest, bitLength);
      if bitLength > 8 * MAX_VALUE_SIZE then Err(UndefinedBehaviour("value overruns its buffer"))
      else Ok(Got(ValueRead(length, bytes.value), bytes.rest))
  }

  /** The value a new entry stores: `length` bytes of the buffer read_bits filled;
      without a value the complete decoder stores the empty value and the early one
      reads a length it never set. */
  function NewValue(variant: Variant, value: Option<ValueRead>): (r: Result<Bytes>)
    ensures value.Some? ==> (r.Ok? <==> value.value.length <= |value.value.bytes|)
    ensures value.Some? && r.Ok? ==> r.value == value.value.bytes[..value.value.length]
    ensures value.None? ==> (r.Ok? <==> variant.Complete?) && (r.Ok? ==> r.value == [])
  {
    match value
    case None => if variant.Complete? then Ok([]) else Err(UndefinedBehaviour("value length never set"))
    case Some(v) =>
      if v.length > |v.bytes| then Err(UndefinedBehaviour("value bytes never written"))
      else Ok(v.bytes[..v.length])
  }

  // ------------------------------------------------------------------- entries

  /** Applying one decoded entry. An id already in the table needs a matching key
      when one was read and changes nothing: the value pointer the code tests is
      never set, so a value read for an existing entry is dropped. Any other id
      needs a key and appends a new entry at position count(), whatever the id. */
  function Apply(variant: Variant, entries: seq<Entry>, id: U32, key: Option<Bytes>, value: Option<ValueRead>)
    : (r: Result<seq<Entry>>)
    ensures id < |entries| ==> (r.Ok? <==> key.None? || entries[id].key == key.value)
    ensures id < |entries| && r.Ok? ==> r.value == entries
    ensures id >= |entries| && r.Ok? ==>
              && key.Some? && NewValue(variant, value).Ok?
              && r.value == entries + [Entry(key.value, NewValue(variant, value).value)]
              && forall i :: 0 <= i < |entries| ==> entries[i].key != key.value
    ensures id >= |entries| && key.Some? && NewValue(variant, value).Ok? && r.Err? ==>
              exists i :: 0 <= i < |entries| && entries[i].key == key.value
    ensures r.Ok? ==> entries <= r.value && |r.value| <= |entries| + 1
    ensures r.Ok? && DistinctKeys(entries) ==> DistinctKeys(r.value)
  {
    if id < |entries| then
      if key.Some? && entries[id].key != key.value then Err(FormatViolation("Entry's keys don't match."))
      else Ok(entries)
    else if key.None? then Err(FormatViolation("Creating a new string table entry but no key specified."))
    else
      var stored :- NewValue(variant, value);
      if exists i :: 0 <= i < |entries| && entries[i].key == key.value then Err(FormatViolation("Entry already exists."))
      else
        DistinctAppend(entries, Entry(key.value, stored));
        Ok(entries + [Entry(key.value, stored)])
  }

  /** An entry whose key is new keeps the keys distinct. */
  lemma {:induction false} DistinctAppend(entries: seq<Entry>, e: Entry)
    requires forall i :: 0 <= i < |entries| ==> entries[i].key != e.key
    ensures DistinctKeys(entries) ==> DistinctKeys(entries + [e])
  {
  }

  /** The decoder's state between entries: the table's entries, the key history
      and the last entry id. */
  datatype Progress = Progress(entries: seq<Entry>, history: seq<Bytes>, lastId: U32)

  /** A set bit followed by a key, or a clear bit. */
  function TakeOptionalKey(r: Reader, variant: Variant, firstBit: U32, history: seq<Bytes>)
    : (g: Result<Got<Option<Bytes>>>)
    ensures g.Ok? ==> g.value.rest.bits == r.bits && r.pos < g.value.rest.pos
  {
    var present :- TakeBits(r, 1);
    if present.value == 0 then Ok(Got(None, present.rest))
    else
      var key :- TakeKey(present.rest, variant, firstBit, history);
      Ok(Got(Some(key.value), key.rest))
  }

  /** A set bit followed by a value, or a clear bit. */
  function TakeOptionalValue(r: Reader, shape: TableShape): (g: Result<Got<Option<ValueRead>>>)
    ensures g.Ok? ==> g.value.rest.bits == r.bits && r.pos < g.value.rest.pos
  {
    var present :- TakeBits(r, 1);
    if present.value == 0 then Ok(Got(None, present.rest))
    else
      var value :- TakeValue(present.rest, shape);
      Ok(Got(Some(value.value), value.rest))
  }

  /** The entry id: a clear bit and an explicit entry_bits-wide id, or a set bit
      and the last id plus one (in uint32_t); it must be below max_entries. */
  function TakeEntryId(r: Reader, shape: TableShape, lastId: U32): (g: Result<Got<U32>>)
    ensures g.Ok? ==> g.value.rest.bits == r.bits && r.pos < g.value.rest.pos && g.value.value < shape.maxEntries
    ensures g.Ok? && TakeBits(r, 1).value.value != 0 ==> g.value.value == Wrap32(lastId + 1)
  {
    var explicit :- TakeBits(r, 1);
    var id :- if explicit.value == 0 then TakeBits(explicit.rest, shape.entryBits)
              else Ok(Got(Wrap32(lastId + 1), explicit.rest));
    if id.value >= shape.maxEntries then Err(FormatViolation("Entry id too large")) else Ok(id)
  }

  /** One entry of update_string_table: id, optional key (remembered in the
      history by the complete decoder), optional value, then applied. */
  function TakeEntry(r: Reader, variant: Variant, shape: TableShape, firstBit: U32, p: Progress): (g: Result<Got<Progress>>)
    requires |p.history| <= KEY_HISTORY_SIZE
    ensures g.Ok? ==> g.value.rest.bits == r.bits && r.pos < g.value.rest.pos
    ensures g.Ok? ==> g.value.value.lastId < shape.maxEntries && |g.value.value.history| <= KEY_HISTORY_SIZE
    ensures g.Ok? ==> p.entries <= g.value.value.entries && |g.value.value.entries| <= |p.entries| + 1
    ensures g.Ok? && DistinctKeys(p.entries) ==> DistinctKeys(g.value.value.entries)
  {
    var id :- TakeEntryId(r, shape, p.lastId);
    var key :- TakeOptionalKey(id.rest, variant, firstBit, p.history);
    var history := if variant.Complete? && key.value.Some? then Remember(p.history, key.value.value) else p.history;
    var value :- TakeOptionalValue(key.rest, shape);
    var entries :- Apply(variant, p.entries, id.value, key.value, value.value);
    Ok(Got(Progress(entries, history, id.value), value.rest))
  }

  /** The loop of update_string_table, one entry further. */
  lemma {:induction false} EntriesStep(r: Reader, variant: Variant, shape: TableShape, firstBit: U32, p: Progress,
                                       read: nat, count: nat, next: Result<Got<Progress>>)
    requires |p.history| <= KEY_HISTORY_SIZE && read < count
    requires next == TakeEntry(r, variant, shape, firstBit, p)
    ensures next.Err? ==> TakeEntries(r, variant, shape, firstBit, p, read, count) == Err(next.error)
    ensures next.Ok? ==> TakeEntries(r, variant, shape, firstBit, p, read, count)
                         == TakeEntries(next.value.rest, variant, shape, firstBit, next.value.value, read + 1, count)
  {
  }

  /** An entry that fails to read ends the remaining entries with its error. */
  lemma {:induction false} EntryFailed(r: Reader, variant: Variant, shape: TableShape, firstBit: U32, p: Progress,
                                       read: nat, count: nat, out: Result<(seq<Bytes>, U32)>, entries: seq<Entry>, after: Reader)
    requires |p.history| <= KEY_HISTORY_SIZE && read < count && out.Err?
    requires Landed(out, entries, after, TakeEntry(r, variant, shape, firstBit, p))
    ensures TakeEntries(r, variant, shape, firstBit, p, read, count) == Err(out.error)
  {
    EntriesStep(r, variant, shape, firstBit, p, read, count, TakeEntry(r, variant, shape, firstBit, p));
  }

  /** An entry read on the stream leaves the entries after it to read from
      where it stopped, with the table and history it produced. */
  lemma {:induction false} EntryLanded(r: Reader, variant: Variant, shape: TableShape, firstBit: U32, p: Progress,
                                       read: nat, count: nat, out: Result<(seq<Bytes>, U32)>, entries: seq<Entry>,
                                       after: Reader, next: Progress)
    requires |p.history| <= KEY_HISTORY_SIZE && read < count && out.Ok?
    requires Landed(out, entries, after, TakeEntry(r, variant, shape, firstBit, p))
    requires next == Progress(entries, out.value.0, out.value.1)
    ensures |next.history| <= KEY_HISTORY_SIZE
    ensures TakeEntries(r, variant, shape, firstBit, p, read, count) == TakeEntries(after, variant, shape, firstBit, next, read + 1, count)
  {
    EntriesStep(r, variant, shape, firstBit, p, read, count, TakeEntry(r, variant, shape, firstBit, p));
  }

  /** The entries numbered `read` up to `count`. */
  function TakeEntries(r: Reader, variant: Variant, shape: TableShape, firstBit: U32, p: Progress, read: nat, count: nat)
    : (g: Result<Got<Progress>>)
    requires |p.history| <= KEY_HISTORY_SIZE
    ensures g.Ok? ==> g.value.rest.bits == r.bits && r.pos <= g.value.rest.pos
    ensures g.Ok? ==> |g.value.value.history| <= KEY_HISTORY_SIZE
    ensures g.Ok? ==> p.entries <= g.value.value.entries
    ensures g.Ok? && read <= count ==> |g.value.value.entries| <= |p.entries| + (count - read)
    ensures g.Ok? && DistinctKeys(p.entries) ==> DistinctKeys(g.value.value.entries)
    decreases count - read
  {
    if read >= count then Ok(Got(p, r))
    else
      var next :- TakeEntry(r, variant, shape, firstBit, p);
      TakeEntries(next.rest, variant, shape, firstBit, next.value, read + 1, count)
  }

  /** update_string_table: the complete decoder leaves a table flagged
      ST_Something alone without reading; otherwise a leading bit, then
      `numEntries` entries from an empty history and id -1. Entries already in
      the table are never changed, and keys stay distinct. */
  function DecodeUpdate(variant: Variant, shape: TableShape, numEntries: nat, data: Bytes, entries: seq<Entry>)
    : (r: Result<seq<Entry>>)
    ensures variant.Complete? && Has(shape.flags, ST_SOMETHING) ==> r == Ok(entries)
    ensures r.Ok? ==> entries <= r.value && |r.value| <= |entries| + numEntries
    ensures r.Ok? && DistinctKeys(entries) ==> DistinctKeys(r.value)
  {
    if variant.Complete? && Has(shape.flags, ST_SOMETHING) then Ok(entries)
    else
      var first :- TakeBits(Open(data), 1);
      var done :- TakeEntries(first.rest, variant, shape, first.value, Progress(entries, [], NO_ENTRY), 0, numEntries);
      Ok(done.value.entries)
  }

  // ------------------------------------------------------------------- methods

  /** read_string_table_key on the stream. */
  method ReadKey(stream: Bitstream, variant: Variant, firstBit: U32, history: seq<Bytes>) returns (r: Result<Bytes>)
    requires stream.Valid()
    modifies stream
    ensures stream.Valid() && Agrees(r, stream.View(), TakeKey(old(stream.View()), variant, firstBit, history))
  {
    if firstBit != 0 {
      var prefixed :- stream.GetBits(1);
      if prefixed != 0 {
        return Err(UnsupportedFeature(if variant.Complete? then "Not sure how to read this key" else "please no"));
      }
    }
    var substring :- stream.GetBits(1);
    if substring != 0 {
      if variant.Early? {
        return Err(UnsupportedFeature("no substring"));
      }
      r := ReadSubstringKey(stream, history);
      return;
    }
    var whole :- stream.ReadString(MAX_KEY_SIZE);
    r := Ok(UpToNul(whole));
  }

  /** The substring form of a key on the stream. */
  method ReadSubstringKey(stream: Bitstream, history: seq<Bytes>) returns (r: Result<Bytes>)
    requires stream.Valid()
    modifies stream
    ensures stream.Valid() && Agrees(r, stream.View(), TakeSubstringKey(old(stream.View()), history))
  {
    var index :- stream.GetBits(5);
    var length :- stream.GetBits(5);
    if index >= |history| {
      return Err(UndefinedBehaviour("key history index out of range"));
    }
    if length > |history[index]| {
      return Err(UndefinedBehaviour("key bytes never written"));
    }
    r := ReadCopiedKey(stream, history[index][..length]);
  }

  /** The rest of a substring key on the stream. */
  method ReadCopiedKey(stream: Bitstream, copied: Bytes) returns (r: Result<Bytes>)
    requires stream.Valid() && |copied| < MAX_KEY_SIZE
    modifies stream
    ensures stream.Valid() && Agrees(r, stream.View(), TakeCopiedKey(old(stream.View()), copied))
  {
    var tail :- stream.ReadString(MAX_KEY_SIZE - |copied|);
    r := Ok(UpToNul(copied + tail));
  }

  /** The value branch of update_string_table on the stream. */
  method ReadValue(stream: Bitstream, table: StringTable) returns (r: Result<ValueRead>)
    requires stream.Valid()
    modifies stream
    ensures stream.Valid() && Agrees(r, stream.View(), TakeValue(old(stream.View()), ShapeOf(table)))
  {
    var length: nat;
    var bitLength: nat;
    if Has(table.flags, ST_FIXED_LENGTH) {
      length := table.userDataSize;
      bitLength := table.userDataSizeBits;
    } else {
      var n :- stream.GetBits(14);
      length := n;
      bitLength := 8 * length;
    }
    if length >= MAX_VALUE_SIZE {
      return Err(FormatViolation("Message too long."));
    }
    var bytes :- stream.ReadBits(bitLength);
    if bitLength > 8 * MAX_VALUE_SIZE {
      return Err(UndefinedBehaviour("value overruns its buffer"));
    }
    r := Ok(ValueRead(length, bytes));
  }

  /** The entry-id branch of update_string_table on the stream. */
  method ReadEntryId(stream: Bitstream, table: StringTable, lastId: U32) returns (r: Result<U32>)
    requires stream.Valid()
    modifies stream
    ensures stream.Valid() && Agrees(r, stream.View(), TakeEntryId(old(stream.View()), ShapeOf(table), lastId))
  {
    var explicit :- stream.GetBits(1);
    var id: U32;
    if explicit == 0 {
      id :- stream.GetBits(table.entryBits);
    } else {
      id := Wrap32(lastId + 1);
    }
    if id >= table.maxEntries {
      return Err(FormatViolation("Entry id too large"));
    }
    r := Ok(id);
  }

  /** An optional key on the stream. */
  method ReadOptionalKey(stream: Bitstream, variant: Variant, firstBit: U32, history: seq<Bytes>)
    returns (r: Result<Option<Bytes>>)
    requires stream.Valid()
    modifies stream
    ensures stream.Valid() && Agrees(r, stream.View(), TakeOptionalKey(old(stream.View()), variant, firstBit, history))
  {
    var present :- stream.GetBits(1);
    if present == 0 {
      return Ok(None);
    }
    var key :- ReadKey(stream, variant, firstBit, history);
    r := Ok(Some(key));
  }

  /** An optional value on the stream. */
  method ReadOptionalValue(stream: Bitstream, table: StringTable) returns (r: Result<Option<ValueRead>>)
    requires stream.Valid()
    modifies stream
    ensures stream.Valid() && Agrees(r, stream.View(), TakeOptionalValue(old(stream.View()), ShapeOf(table)))
  {
    var present :- stream.GetBits(1);
    if present == 0 {
      return Ok(None);
    }
    var value :- ReadValue(stream, table);
    r := Ok(Some(value));
  }

  /** Applying an entry to the table: nothing for an existing id (after the key
      check), table.put for a new one. */
  method ApplyEntry(table: StringTable, variant: Variant, id: U32, key: Option<Bytes>, value: Option<ValueRead>)
    returns (o: Outcome)
    modifies table
    ensures match Apply(variant, old(table.entries), id, key, value)
            case Ok(e) => o == Pass && table.entries == e
            case Err(e) => o == Fail(e)
  {
    ghost var entries := table.entries;
    if id < table.Count() {
      var item := table.Get(id);
      assert item == Ok(entries[id]);
      if key.Some? && item.value.key != key.value {
        assert Apply(variant, entries, id, key, value) == Err(FormatViolation("Entry's keys don't match."));
        return Fail(FormatViolation("Entry's keys don't match."));
      }
      assert Apply(variant, entries, id, key, value) == Ok(entries);
      return Pass;
    }
    assert id >= |entries|;
    if key.None? {
      assert Apply(variant, entries, id, key, value) == Err(FormatViolation("Creating a new string table entry but no key specified."));
      return Fail(FormatViolation("Creating a new string table entry but no key specified."));
    }
    var stored := NewValue(variant, value);
    if stored.Err? {
      assert Apply(variant, entries, id, key, value) == Err(stored.error);
      return Fail(stored.error);
    }
    var put := table.Put(key.value, stored.value);
    if put.Err? {
      assert exists i :: 0 <= i < |entries| && entries[i].key == key.value;
      assert Apply(variant, entries, id, key, value) == Err(put.error);
      return Fail(put.error);
    }
    assert !exists i :: 0 <= i < |entries| && entries[i].key == key.value;
    assert Apply(variant, entries, id, key, value) == Ok(table.entries);
    o := Pass;
  }

  /** The stream, the table and the returned history and id after one entry
      are those TakeEntry computes. */
  ghost predicate Landed(r: Result<(seq<Bytes>, U32)>, entries: seq<Entry>, after: Reader, spec: Result<Got<Progress>>) {
    match spec
    case Ok(g) => r == Ok((g.value.history, g.value.lastId)) && entries == g.value.entries && after == g.rest
    case Err(e) => r == Err(e)
  }

  /** One entry of update_string_table on the stream. */
  method ReadEntry(table: StringTable, stream: Bitstream, variant: Variant, firstBit: U32, history: seq<Bytes>, lastId: U32)
    returns (r: Result<(seq<Bytes>, U32)>)
    requires stream.Valid() && |history| <= KEY_HISTORY_SIZE
    modifies table, stream
    ensures stream.Valid()
    ensures Landed(r, table.entries, stream.View(),
                   TakeEntry(old(stream.View()), variant, ShapeOf(table), firstBit, Progress(old(table.entries), history, lastId)))
  {
    var id :- ReadEntryId(stream, table, lastId);
    var key :- ReadOptionalKey(stream, variant, firstBit, history);
    var remembered := if variant.Complete? && key.Some? then Remember(history, key.value) else history;
    var value :- ReadOptionalValue(stream, table);
    var applied := ApplyEntry(table, variant, id, key, value);
    if applied.Fail? {
      return Err(applied.error);
    }
    r := Ok((remembered, id));
  }

  /** One pass of the loop of update_string_table: entry number `read` read
      and applied. */
  method ReadNext(table: StringTable, stream: Bitstream, variant: Variant, firstBit: U32, history: seq<Bytes>, lastId: U32,
                  read: nat, count: nat, ghost total: Result<Got<Progress>>)
    returns (r: Result<(seq<Bytes>, U32)>)
    requires stream.Valid() && |history| <= KEY_HISTORY_SIZE && read < count
    requires total == TakeEntries(stream.View(), variant, ShapeOf(table), firstBit, Progress(table.entries, history, lastId), read, count)
    modifies table, stream
    ensures stream.Valid()
    ensures r.Err? ==> total == Err(r.error)
    ensures r.Ok? ==> |r.value.0| <= KEY_HISTORY_SIZE
    ensures r.Ok? ==> total == TakeEntries(stream.View(), variant, ShapeOf(table), firstBit,
                                           Progress(table.entries, r.value.0, r.value.1), read + 1, count)
  {
    ghost var at, p := stream.View(), Progress(table.entries, history, lastId);
    r := ReadEntry(table, stream, variant, firstBit, history, lastId);
    if r.Err? {
      EntryFailed(at, variant, ShapeOf(table), firstBit, p, read, count, r, table.entries, stream.View());
    } else {
      EntryLanded(at, variant, ShapeOf(table), firstBit, p, read, count, r, table.entries, stream.View(),
                  Progress(table.entries, r.value.0, r.value.1));
    }
  }

  /** The loop of update_string_table: `numEntries` entries from an empty
      history and id -1, applied to the table as TakeEntries says. */
  method ReadEntries(table: StringTable, stream: Bitstream, variant: Variant, firstBit: U32, numEntries: nat)
    returns (o: Outcome)
    requires stream.Valid()
    modifies table, stream
    ensures match TakeEntries(old(stream.View()), variant, ShapeOf(table), firstBit, Progress(old(table.entries), [], NO_ENTRY), 0, numEntries)
            case Ok(g) => o == Pass && table.entries == g.value.entries
            case Err(e) => o == Fail(e)
  {
    var history: seq<Bytes> := [];
    var lastId := NO_ENTRY;
    var read: nat := 0;
    ghost var total := TakeEntries(stream.View(), variant, ShapeOf(table), firstBit, Progress(table.entries, [], NO_ENTRY), 0, numEntries);
    while read < numEntries
      invariant stream.Valid() && |history| <= KEY_HISTORY_SIZE
      invariant total == TakeEntries(stream.View(), variant, ShapeOf(table), firstBit, Progress(table.entries, history, lastId), read, numEntries)
      decreases numEntries - read
    {
      var next := ReadNext(table, stream, variant, firstBit, history, lastId, read, numEntries, total);
      if next.Err? {
        return Fail(next.error);
      }
      history, lastId := next.value.0, next.value.1;
      read := read + 1;
    }
    o := Pass;
  }

  /** update_string_table on a table: its entries become what DecodeUpdate says. */
  method UpdateStringTable(table: StringTable, variant: Variant, numEntries: nat, data: Bytes) returns (o: Outcome)
    modifies table
    ensures match DecodeUpdate(variant, ShapeOf(table), numEntries, data, old(table.entries))
            case Ok(e) => o == Pass && table.entries == e
            case Err(e) => o == Fail(e)
  {
    if variant.Complete? && Has(table.flags, ST_SOMETHING) {
      return Pass;
    }
    var stream := new Bitstream(data);
    var first := stream.GetBits(1);
    if first.Err? {
      return Fail(first.error);
    }
    o := ReadEntries(table, stream, variant, first.value, numEntries);
  }
}
