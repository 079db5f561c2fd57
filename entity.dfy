/** Entities of src/entity.cpp: the delta-encoded list of field indices an entity
    update carries, and the entity record whose property slots the update
    overwrites. The spec functions say what the list and the patch are; class
    `Entity` is the record, whose `Update` is proved to agree with them. */
module Entities {
  import opened Wrappers
  import opened Bits
  import opened BitReader
  import opened Schema
  import opened Properties

  /** The id of an empty slot: -1 stored in a uint32. */
  const NO_ID: U32 := 0xFFFF_FFFF

  /** The field number that ends a field list. */
  const END_OF_FIELDS: U32 := 0xFFFF_FFFF

  /** The read_var_35 delta that stands for the end of the list. */
  const END_CODE: U32 := 0x3FFF

  // ------------------------------------------------------- read_field_number

  /** read_field_number: a set flag bit gives the field after `last`; otherwise a
      read_var_35 value follows, END_CODE ending the list and any other value v
      skipping v fields. The field number is a uint32 and wraps. */
  function TakeFieldNumber(r: Reader, last: U32): (g: Result<Got<U32>>)
    ensures g.Ok? ==> g.value.rest.bits == r.bits && r.pos + 1 <= g.value.rest.pos <= r.pos + 41
    ensures g.Ok? && g.value.rest.pos == r.pos + 1 ==> g.value.value == Wrap32(last + 1)
  {
    var flag :- TakeBits(r, 1);
    if flag.value != 0 then Ok(Got(Wrap32(last + 1), flag.rest))
    else
      var v :- TakeVar35(flag.rest);
      if v.value == END_CODE then Ok(Got(END_OF_FIELDS, v.rest))
      else Ok(Got(Wrap32(last + Wrap32(v.value as int + 1)), v.rest))
  }

  /** The step read_field_number moves on by, as read at `r` and before the
      uint32 addition: 1 for a set flag bit, v + 1 for a read_var_35 value v
      other than END_CODE, and None for END_CODE. It does not depend on the
      field it moves on from. */
  function TakeFieldStep(r: Reader): (g: Result<Got<Option<nat>>>)
    ensures g.Ok? ==> g.value.rest.bits == r.bits && r.pos + 1 <= g.value.rest.pos
    ensures g.Ok? && g.value.value.Some? ==> 1 <= g.value.value.value <= TWO_32
  {
    var flag :- TakeBits(r, 1);
    if flag.value != 0 then Ok(Got(Some(1), flag.rest))
    else
      var v :- TakeVar35(flag.rest);
      if v.value == END_CODE then Ok(Got(None, v.rest)) else Ok(Got(Some(v.value as int + 1), v.rest))
  }

  /** read_field_number reads the step at `r` and adds it to `last` modulo 2^32
      (a step of 2^32 repeats `last`); the end code reads as END_OF_FIELDS. */
  lemma {:induction false} FieldNumberSteps(r: Reader, last: U32)
    requires TakeFieldStep(r).Ok?
    ensures TakeFieldNumber(r, last).Ok?
    ensures TakeFieldNumber(r, last).value.rest == TakeFieldStep(r).value.rest
    ensures var s := TakeFieldStep(r).value.value;
            TakeFieldNumber(r, last).value.value == if s.None? then END_OF_FIELDS else Wrap32(last + s.value)
  {
    var flag := TakeBits(r, 1).value;
    if flag.value == 0 {
      WrappedIncrement(last, TakeVar35(flag.rest).value.value);
    }
  }

  /** Adding v + 1 computed in uint32 is adding v + 1, modulo 2^32. */
  lemma {:induction false} WrappedIncrement(last: U32, v: U32)
    ensures Wrap32(last + Wrap32(v as int + 1)) == Wrap32(last + (v as int + 1))
  {
    if v as int + 1 == TWO_32 {
      assert Wrap32(v as int + 1) == 0;
      assert Wrap32(last + TWO_32) == last;
    }
  }

  // --------------------------------------------------------- read_field_list

  /** `g` with `done` put in front of the fields it yields. */
  function Listed(done: seq<U32>, g: Result<Got<seq<U32>>>): Result<Got<seq<U32>>> {
    match g
    case Ok(got) => Ok(Got(done + got.value, got.rest))
    case Err(e) => Err(e)
  }

  /** The rest of read_field_list once `last` has been read and the reader stands
      at `r`: nothing when `last` is the end marker, otherwise `last` followed by
      the fields after the next number. */
  function FieldsAfter(r: Reader, last: U32): (g: Result<Got<seq<U32>>>)
    ensures g.Ok? ==> g.value.rest.bits == r.bits && r.pos <= g.value.rest.pos
    ensures g.Ok? ==> forall i :: 0 <= i < |g.value.value| ==> g.value.value[i] != END_OF_FIELDS
    ensures g.Ok? ==> (|g.value.value| == 0 <==> last == END_OF_FIELDS)
    decreases r.End() - r.pos
  {
    if last == END_OF_FIELDS then Ok(Got([], r))
    else
      var next :- TakeFieldNumber(r, last);
      var tail :- FieldsAfter(next.rest, next.value);
      Ok(Got([last] + tail.value, tail.rest))
  }

  /** read_field_list: the field numbers read from -1 on, up to the end marker,
      which is not part of the list. */
  function TakeFieldList(r: Reader): (g: Result<Got<seq<U32>>>)
    ensures g.Ok? ==> g.value.rest.bits == r.bits && r.pos + 1 <= g.value.rest.pos
    ensures g.Ok? ==> forall i :: 0 <= i < |g.value.value| ==> g.value.value[i] != END_OF_FIELDS
  {
    var first :- TakeFieldNumber(r, NO_ID);
    FieldsAfter(first.rest, first.value)
  }

  /** The list starts from -1, so a leading set bit yields field 0. */
  lemma {:induction false} LeadingIncrementIsZero(r: Reader)
    requires TakeFieldList(r).Ok? && TakeBits(r, 1).Ok? && TakeBits(r, 1).value.value == 1
    ensures |TakeFieldList(r).value.value| > 0 && TakeFieldList(r).value.value[0] == 0
  {
    var first := TakeFieldNumber(r, NO_ID).value;
    assert first.value == 0;
  }

  /** The numbers FieldsAfter(r, last) would list in unbounded arithmetic: `last`,
      then the running sums of the steps read from `r` on, up to the end code.
      Unlike the uint32 list it neither wraps nor stops at a sum of 2^32 - 1. */
  function WideFieldsAfter(r: Reader, last: int): (g: Result<Got<seq<int>>>)
    ensures g.Ok? ==> |g.value.value| > 0 && g.value.value[0] == last
    decreases r.End() - r.pos
  {
    match TakeFieldStep(r)
    case Err(e) => Err(e)
    case Ok(s) =>
      if s.value.None? then Ok(Got([last], s.rest))
      else
        match WideFieldsAfter(s.rest, last + s.value.value)
        case Err(e) => Err(e)
        case Ok(tail) => Ok(Got([last] + tail.value, tail.rest))
  }

  /** read_field_list in unbounded arithmetic: the running sums of the steps from
      -1 on, up to the end code. */
  function WideFieldList(r: Reader): Result<Got<seq<int>>> {
    var s :- TakeFieldStep(r);
    match s.value
    case None => Ok(Got([], s.rest))
    case Some(step) => WideFieldsAfter(s.rest, step - 1)
  }

  /** `xs` strictly increases. */
  predicate Increasing(xs: seq<int>) {
    forall i, j :: 0 <= i < j < |xs| ==> xs[i] < xs[j]
  }

  /** A number below the head of an increasing list extends it. */
  lemma {:induction false} IncreasingCons(x: int, ys: seq<int>)
    requires Increasing(ys) && (|ys| > 0 ==> x < ys[0])
    ensures Increasing([x] + ys)
  {
    var xs := [x] + ys;
    forall i, j | 0 <= i < j < |xs| ensures xs[i] < xs[j] {
      if i == 0 && j > 1 {
        assert ys[0] < ys[j - 1];
      }
    }
  }

  /** Every step is at least one, so the unbounded numbers strictly increase. */
  lemma {:induction false} WideFieldsIncrease(r: Reader, last: int)
    requires WideFieldsAfter(r, last).Ok?
    ensures Increasing(WideFieldsAfter(r, last).value.value)
    decreases r.End() - r.pos
  {
    var s := TakeFieldStep(r).value;
    if s.value.Some? {
      var tail := WideFieldsAfter(s.rest, last + s.value.value).value;
      WideFieldsIncrease(s.rest, last + s.value.value);
      WideFieldsAfterCons(r, last, s, tail);
      IncreasingCons(last, tail.value);
    }
  }

  /** FieldsAfter past a step that does not wrap: `last`, then the fields after
      `last` plus the step. */
  lemma {:induction false} FieldsAfterStep(r: Reader, last: U32, s: Got<Option<nat>>)
    requires TakeFieldStep(r) == Ok(s) && s.value.Some? && last + s.value.value < END_OF_FIELDS
    ensures FieldsAfter(r, last) == Listed([last], FieldsAfter(s.rest, last + s.value.value))
  {
    var n: U32 := last + s.value.value;
    assert Agrees(Ok(n), s.rest, TakeFieldNumber(r, last)) by {
      FieldNumberSteps(r, last);
    }
    FieldListStep(r, last, [], Ok(n), s.rest, Listed([], FieldsAfter(r, last)));
    assert [] + [last] == [last];
    if FieldsAfter(r, last).Ok? {
      assert [] + FieldsAfter(r, last).value.value == FieldsAfter(r, last).value.value;
    }
  }

  /** FieldsAfter at the end code: `last` alone. */
  lemma {:induction false} FieldsAfterEnd(r: Reader, last: U32, s: Got<Option<nat>>)
    requires TakeFieldStep(r) == Ok(s) && s.value.None? && last != END_OF_FIELDS
    ensures FieldsAfter(r, last) == Ok(Got([last], s.rest))
  {
    var next := TakeFieldNumber(r, last);
    assert next == Ok(Got(END_OF_FIELDS, s.rest)) by {
      FieldNumberSteps(r, last);
    }
    assert FieldsAfter(s.rest, END_OF_FIELDS) == Ok(Got([], s.rest));
    assert [last] + [] == [last];
  }

  /** The list read from -1: the fields after the first step, less one. */
  lemma {:induction false} FieldListStart(r: Reader, s: Got<Option<nat>>)
    requires TakeFieldStep(r) == Ok(s)
    ensures s.value.None? ==> TakeFieldList(r) == Ok(Got([], s.rest))
    ensures s.value.Some? ==> TakeFieldList(r) == FieldsAfter(s.rest, s.value.value - 1)
  {
    FieldNumberSteps(r, NO_ID);
    var first := TakeFieldNumber(r, NO_ID).value;
    assert TakeFieldList(r) == FieldsAfter(first.rest, first.value);
    assert first.rest == s.rest;
    if s.value.Some? {
      assert first.value == Wrap32(NO_ID + s.value.value);
      WrapFromNoId(s.value.value);
    } else {
      assert first.value == END_OF_FIELDS;
    }
  }

  /** One unfolding of WideFieldsAfter past a step. */
  lemma {:induction false} WideFieldsAfterCons(r: Reader, last: int, s: Got<Option<nat>>, tail: Got<seq<int>>)
    requires TakeFieldStep(r) == Ok(s) && s.value.Some?
    requires WideFieldsAfter(s.rest, last + s.value.value) == Ok(tail)
    ensures WideFieldsAfter(r, last).Ok?
    ensures WideFieldsAfter(r, last).value.value == [last] + tail.value
    ensures WideFieldsAfter(r, last).value.rest == tail.rest
  {
  }

  /** WideFieldsAfter at the end code: `last` alone. */
  lemma {:induction false} WideFieldsAfterEnd(r: Reader, last: int, s: Got<Option<nat>>)
    requires TakeFieldStep(r) == Ok(s) && s.value.None?
    ensures WideFieldsAfter(r, last).Ok?
    ensures WideFieldsAfter(r, last).value.value == [last]
    ensures WideFieldsAfter(r, last).value.rest == s.rest
  {
  }

  /** A successful WideFieldsAfter past a step: `last`, then what follows. */
  lemma {:induction false} WideFieldsAfterStep(r: Reader, last: int, s: Got<Option<nat>>) returns (tail: Got<seq<int>>)
    requires TakeFieldStep(r) == Ok(s) && s.value.Some? && WideFieldsAfter(r, last).Ok?
    ensures WideFieldsAfter(s.rest, last + s.value.value) == Ok(tail)
    ensures WideFieldsAfter(r, last).value.value == [last] + tail.value
    ensures WideFieldsAfter(r, last).value.rest == tail.rest
  {
    tail := WideFieldsAfter(s.rest, last + s.value.value).value;
  }

  /** While the unbounded numbers stay below 2^32 - 1, nothing wraps and the
      uint32 list is exactly the unbounded one. */
  lemma {:induction false} FieldsAfterIsWide(r: Reader, last: U32)
    requires last != END_OF_FIELDS && WideFieldsAfter(r, last).Ok?
    requires var w := WideFieldsAfter(r, last).value.value;
             forall k :: 0 <= k < |w| ==> w[k] < END_OF_FIELDS
    ensures FieldsAfter(r, last).Ok?
    ensures FieldsAfter(r, last).value.value == WideFieldsAfter(r, last).value.value
    ensures FieldsAfter(r, last).value.rest == WideFieldsAfter(r, last).value.rest
    decreases r.End() - r.pos
  {
    var s := TakeFieldStep(r).value;
    if s.value.None? {
      WideFieldsAfterEnd(r, last, s);
      FieldsAfterEnd(r, last, s);
    } else {
      var wide := WideFieldsAfterStep(r, last, s);
      var n := last + s.value.value;
      assert forall k :: 0 <= k < |wide.value| ==> wide.value[k] == ([last] + wide.value)[k + 1];
      assert n == wide.value[0];
      FieldsAfterIsWide(s.rest, n);
      FieldsAfterStep(r, last, s);
    }
  }

  /** The field list strictly increases while no running sum of its steps from -1
      reaches 2^32 - 1: it is then the unbounded list. */
  lemma {:induction false} FieldListIncreases(r: Reader)
    requires WideFieldList(r).Ok?
    requires var w := WideFieldList(r).value.value;
             forall k :: 0 <= k < |w| ==> w[k] < END_OF_FIELDS
    ensures TakeFieldList(r).Ok?
    ensures TakeFieldList(r).value.value == WideFieldList(r).value.value
    ensures Increasing(TakeFieldList(r).value.value)
  {
    var s := TakeFieldStep(r).value;
    FieldListStart(r, s);
    if s.value.Some? {
      var n := s.value.value - 1;
      FieldsAfterIsWide(s.rest, n);
      WideFieldsIncrease(s.rest, n);
    }
  }

  /** The first step is taken from -1 stored in a uint32. */
  lemma {:induction false} WrapFromNoId(step: int)
    requires 1 <= step <= TWO_32
    ensures Wrap32(NO_ID + step) == step - 1
  {
    assert NO_ID + step == (step - 1) + TWO_32;
  }

  /** One more number of the list: an error ends the whole read with it; otherwise
      `last` joins the fields read so far. */
  lemma {:induction false} FieldListStep(r: Reader, last: U32, done: seq<U32>, next: Result<U32>, after: Reader,
                                         total: Result<Got<seq<U32>>>)
    requires last != END_OF_FIELDS && Agrees(next, after, TakeFieldNumber(r, last))
    requires total == Listed(done, FieldsAfter(r, last))
    ensures next.Err? ==> total == Err(next.error)
    ensures next.Ok? ==> total == Listed(done + [last], FieldsAfter(after, next.value))
  {
    if next.Ok? {
      var tail := FieldsAfter(after, next.value);
      if tail.Ok? {
        assert done + ([last] + tail.value.value) == done + [last] + tail.value.value;
      }
    }
  }

  // ------------------------------------------------------------------- update

  /** Entity::update once the field list is known: each listed slot, in list
      order, is overwritten with the value decoded with the prop of the same
      index. An index past the props or the slots is undefined behaviour. */
  function Patch(r: Reader, props: seq<SendProp>, slots: seq<Option<PropValue>>, fields: seq<U32>)
    : (g: Result<Got<seq<Option<PropValue>>>>)
    ensures g.Ok? ==> |g.value.value| == |slots| && g.value.rest.bits == r.bits && r.pos <= g.value.rest.pos
    ensures g.Ok? ==> forall j :: 0 <= j < |slots| && j !in fields ==> g.value.value[j] == slots[j]
    ensures g.Ok? ==> forall k :: 0 <= k < |fields| ==>
              && fields[k] < |props| && fields[k] < |slots|
              && g.value.value[fields[k]].Some?
              && KindMatches(props[fields[k]].kind, g.value.value[fields[k]].value)
    decreases |fields|
  {
    if |fields| == 0 then Ok(Got(slots, r))
    else
      var i := fields[0];
      if i >= |props| || i >= |slots| then Err(UndefinedBehaviour("field index out of range"))
      else
        var v :- TakeProp(r, props[i]);
        PropKind(r, props[i]);
        var g := Patch(v.rest, props, slots[i := Some(v.value)], fields[1..]);
        PatchHead(fields, i, g, slots[i := Some(v.value)]);
        g
  }

  /** How the first listed slot fares after the rest of the list is patched. */
  lemma {:induction false} PatchHead(fields: seq<U32>, i: U32, g: Result<Got<seq<Option<PropValue>>>>,
                                     slots: seq<Option<PropValue>>)
    requires |fields| > 0 && fields[0] == i
    requires g.Ok? ==> |g.value.value| == |slots|
    requires g.Ok? ==> forall j :: 0 <= j < |slots| && j !in fields[1..] ==> g.value.value[j] == slots[j]
    ensures g.Ok? ==> forall j :: 0 <= j < |slots| && j !in fields ==> g.value.value[j] == slots[j]
    ensures g.Ok? && i < |slots| && i !in fields[1..] ==> g.value.value[i] == slots[i]
  {
    if g.Ok? {
      forall j | 0 <= j < |slots| && j !in fields
        ensures g.value.value[j] == slots[j]
      {
        assert forall x :: x in fields[1..] ==> x in fields;
      }
    }
  }

  /** Entity::update: reads the whole field list, then patches the listed slots. */
  function TakeUpdate(r: Reader, props: seq<SendProp>, slots: seq<Option<PropValue>>)
    : (g: Result<Got<seq<Option<PropValue>>>>)
    ensures g.Ok? ==> |g.value.value| == |slots| && g.value.rest.bits == r.bits && r.pos + 1 <= g.value.rest.pos
  {
    var fields :- TakeFieldList(r);
    Patch(fields.rest, props, slots, fields.value)
  }

  /** A field list that is only the end marker (a clear flag bit, then 0x3FFF in
      read_var_35's two bytes) leaves every slot as it was and consumes 17 bits. */
  lemma {:induction false} EndMarkerLeavesSlots(bits: seq<bool>, pos: nat, props: seq<SendProp>,
                                                slots: seq<Option<PropValue>>)
    requires Holds(bits, pos, [false] + BytesToBits(Leb128(END_CODE)))
    ensures TakeUpdate(Cursor(bits, pos), props, slots) == Ok(Got(slots, Cursor(bits, pos + 17)))
  {
    assert Leb128(END_CODE) == [0xFF, 0x7F];
    HoldsSplit(bits, pos, [false], BytesToBits(Leb128(END_CODE)));
    Var35RoundTrip(bits, pos + 1, END_CODE);
    ValueOfToBits(0, 1);
    assert bits[pos..pos + 1] == [false];
    assert ValueOf(bits[pos..pos + 1]) == 0 by {
      assert ValueOf([false]) == 0;
    }
    assert TakeBits(Cursor(bits, pos), 1) == Ok(Got(0, Cursor(bits, pos + 1)));
    assert TakeFieldNumber(Cursor(bits, pos), NO_ID) == Ok(Got(END_OF_FIELDS, Cursor(bits, pos + 17)));
  }

  /** One more listed slot of the update loop. */
  lemma {:induction false} PatchStep(r: Reader, props: seq<SendProp>, slots: seq<Option<PropValue>>, fields: seq<U32>,
                                     k: nat, value: Result<PropValue>, after: Reader,
                                     total: Result<Got<seq<Option<PropValue>>>>)
    requires k < |fields| && fields[k] < |props| && fields[k] < |slots|
    requires Agrees(value, after, TakeProp(r, props[fields[k]]))
    requires total == Patch(r, props, slots, fields[k..])
    ensures value.Err? ==> total == Err(value.error)
    ensures value.Ok? ==> total == Patch(after, props, slots[fields[k] := Some(value.value)], fields[k + 1..])
  {
    assert fields[k..][0] == fields[k] && fields[k..][1..] == fields[k + 1..];
  }

  /** The values an update decodes, apart from where they are written: for each
      listed field in list order, read_prop with the prop of that index, each
      read starting where the previous one ended. An index past the props or
      past `size` slots is undefined behaviour. */
  function DecodeFields(r: Reader, props: seq<SendProp>, size: nat, fields: seq<U32>)
    : (g: Result<Got<seq<PropValue>>>)
    ensures g.Ok? ==> |g.value.value| == |fields| && g.value.rest.bits == r.bits && r.pos <= g.value.rest.pos
    ensures g.Ok? ==> forall k :: 0 <= k < |fields| ==>
              fields[k] < |props| && fields[k] < size && KindMatches(props[fields[k]].kind, g.value.value[k])
    ensures g.Ok? && |fields| > 0 ==>
              TakeProp(r, props[fields[0]]).Ok? && g.value.value[0] == TakeProp(r, props[fields[0]]).value.value
    decreases |fields|
  {
    if |fields| == 0 then Ok(Got([], r))
    else
      var i := fields[0];
      if i >= |props| || i >= size then Err(UndefinedBehaviour("field index out of range"))
      else
        var v :- TakeProp(r, props[i]);
        PropKind(r, props[i]);
        var rest :- DecodeFields(v.rest, props, size, fields[1..]);
        Ok(Got([v.value] + rest.value, rest.rest))
  }

  /** Listing `k` is the last one of its field. */
  predicate LastListing(fields: seq<U32>, k: int) {
    0 <= k < |fields| && forall m :: k < m < |fields| ==> fields[m] != fields[k]
  }

  /** The slots after writing `values[k]` into slot `fields[k]` for each k in
      order. */
  function Written(slots: seq<Option<PropValue>>, fields: seq<U32>, values: seq<PropValue>): (w: seq<Option<PropValue>>)
    requires |values| == |fields| && forall k :: 0 <= k < |fields| ==> fields[k] < |slots|
    ensures |w| == |slots|
    decreases |fields|
  {
    if |fields| == 0 then slots
    else Written(slots[fields[0] := Some(values[0])], fields[1..], values[1..])
  }

  /** The last write to a slot wins, and a slot no field names keeps its value. */
  lemma {:induction false} WrittenLastWins(slots: seq<Option<PropValue>>, fields: seq<U32>, values: seq<PropValue>)
    requires |values| == |fields| && forall k :: 0 <= k < |fields| ==> fields[k] < |slots|
    ensures forall k | LastListing(fields, k) :: Written(slots, fields, values)[fields[k]] == Some(values[k])
    ensures forall j | 0 <= j < |slots| && j !in fields :: Written(slots, fields, values)[j] == slots[j]
    decreases |fields|
  {
    if |fields| > 0 {
      var slots' := slots[fields[0] := Some(values[0])];
      WrittenLastWins(slots', fields[1..], values[1..]);
      forall k | LastListing(fields, k)
        ensures Written(slots, fields, values)[fields[k]] == Some(values[k])
      {
        if k == 0 {
          assert fields[0] !in fields[1..] by {
            forall m | 0 <= m < |fields[1..]| ensures fields[1..][m] != fields[0] {
              assert fields[1..][m] == fields[m + 1];
            }
          }
        } else {
          assert LastListing(fields[1..], k - 1) by {
            forall m | k - 1 < m < |fields[1..]| ensures fields[1..][m] != fields[1..][k - 1] {
              assert fields[1..][m] == fields[m + 1];
            }
          }
          assert fields[1..][k - 1] == fields[k] && values[1..][k - 1] == values[k];
        }
      }
      forall j | 0 <= j < |slots| && j !in fields
        ensures Written(slots, fields, values)[j] == slots[j]
      {
        assert j !in fields[1..] && j != fields[0];
      }
    }
  }

  /** Patching is decoding, then writing: Patch succeeds exactly when the listed
      values decode, ends where their decoding ends, and leaves the slots with
      those values written in list order. The values read do not depend on what
      the slots held. */
  lemma {:induction false} PatchDecodesThenWrites(r: Reader, props: seq<SendProp>, slots: seq<Option<PropValue>>, fields: seq<U32>)
    ensures Patch(r, props, slots, fields).Ok? <==> DecodeFields(r, props, |slots|, fields).Ok?
    ensures Patch(r, props, slots, fields).Ok? ==>
              && Patch(r, props, slots, fields).value.rest == DecodeFields(r, props, |slots|, fields).value.rest
              && Patch(r, props, slots, fields).value.value == Written(slots, fields, DecodeFields(r, props, |slots|, fields).value.value)
    decreases |fields|
  {
    if |fields| > 0 {
      var i := fields[0];
      if i < |props| && i < |slots| && TakeProp(r, props[i]).Ok? {
        var v := TakeProp(r, props[i]).value;
        PatchDecodesThenWrites(v.rest, props, slots[i := Some(v.value)], fields[1..]);
        var rest := DecodeFields(v.rest, props, |slots|, fields[1..]);
        if rest.Ok? {
          var values := [v.value] + rest.value.value;
          assert values[0] == v.value && values[1..] == rest.value.value;
        }
      }
    }
  }

  /** Entity::update in terms of its parts: the field list, the values decoded
      for it, and the slots with those values written, the last listing of a
      field winning and unlisted slots left as they were. */
  lemma {:induction false} UpdateWrites(r: Reader, props: seq<SendProp>, slots: seq<Option<PropValue>>)
    requires TakeUpdate(r, props, slots).Ok?
    ensures TakeFieldList(r).Ok?
    ensures var fields := TakeFieldList(r).value;
            && DecodeFields(fields.rest, props, |slots|, fields.value).Ok?
            && var values := DecodeFields(fields.rest, props, |slots|, fields.value).value;
               && TakeUpdate(r, props, slots).value.rest == values.rest
               && TakeUpdate(r, props, slots).value.value == Written(slots, fields.value, values.value)
               && (forall k | LastListing(fields.value, k) :: TakeUpdate(r, props, slots).value.value[fields.value[k]] == Some(values.value[k]))
               && (forall j | 0 <= j < |slots| && j !in fields.value :: TakeUpdate(r, props, slots).value.value[j] == slots[j])
  {
    var fields := TakeFieldList(r).value;
    PatchDecodesThenWrites(fields.rest, props, slots, fields.value);
    var values := DecodeFields(fields.rest, props, |slots|, fields.value).value;
    WrittenLastWins(slots, fields.value, values.value);
  }

  // ------------------------------------------------------------------- Entity

  /** What an observer sees of an entity. */
  datatype EntityView = EntityView(id: U32, clazz: Option<Class>, properties: seq<Option<PropValue>>)

  /** An entity slot: its id (NO_ID when empty), class, flattened table and one
      property slot per prop of that table. */
  class Entity {
    var id: U32
    var clazz: Option<Class>
    var table: Option<FlatSendTable>
    var properties: seq<Option<PropValue>>

    /** Entity(): an empty slot, with no class and no table. */
    constructor ()
      ensures id == NO_ID && clazz == None && table == None && properties == []
    {
      id := NO_ID;
      clazz := None;
      table := None;
      properties := [];
    }

    function View(): EntityView
      reads this
    {
      EntityView(id, clazz, properties)
    }

    /** `entity = Entity(id, clazz, table)`: the slot takes the id, the class and the
        table, with one empty property per prop of the table. */
    method Assign(id: U32, clazz: Class, table: FlatSendTable)
      modifies this
      ensures this.id == id && this.clazz == Some(clazz) && this.table == Some(table)
      ensures |properties| == |table.props| && forall i :: 0 <= i < |properties| ==> properties[i].None?
    {
      this.id := id;
      this.clazz := Some(clazz);
      this.table := Some(table);
      properties := [];
      var i := 0;
      while i < |table.props|
        invariant this.id == id && this.clazz == Some(clazz) && this.table == Some(table)
        invariant i <= |table.props| && |properties| == i
        invariant forall j :: 0 <= j < i ==> properties[j].None?
      {
        properties := properties + [None];
        i := i + 1;
      }
    }

    /** The props the slots are decoded with; without a table every index is out
        of range. */
    function Props(): seq<SendProp>
      reads this
    {
      if table.Some? then table.value.props else []
    }

    /** Entity::update: the id, class and table stay; the properties are patched as
        TakeUpdate describes. */
    method Update(stream: Bitstream) returns (o: Outcome)
      requires stream.Valid()
      modifies this, stream
      ensures stream.Valid()
      ensures id == old(id) && clazz == old(clazz) && table == old(table)
      ensures match TakeUpdate(old(stream.View()), old(Props()), old(properties))
              case Ok(g) => o == Pass && properties == g.value && stream.View() == g.rest
              case Err(e) => o == Fail(e)
    {
      var list := ReadFieldList(stream);
      if list.Err? {
        return Fail(list.error);
      }
      var fields := list.value;
      var props := Props();
      ghost var total := Patch(stream.View(), props, properties, fields);
      assert fields[0..] == fields;
      var k := 0;
      while k < |fields|
        invariant stream.Valid() && k <= |fields|
        invariant id == old(id) && clazz == old(clazz) && table == old(table)
        invariant total == Patch(stream.View(), props, properties, fields[k..])
      {
        var i := fields[k];
        if i >= |props| || i >= |properties| {
          return Fail(UndefinedBehaviour("field index out of range"));
        }
        ghost var before := stream.View();
        var value, _ := ReadProp(stream, props[i]);
        PatchStep(before, props, properties, fields, k, value, stream.View(), total);
        if value.Err? {
          return Fail(value.error);
        }
        properties := properties[i := Some(value.value)];
        k := k + 1;
      }
      o := Pass;
    }
  }

  /** read_field_number on the stream. */
  method ReadFieldNumber(stream: Bitstream, last: U32) returns (r: Result<U32>)
    requires stream.Valid()
    modifies stream
    ensures stream.Valid() && Agrees(r, stream.View(), TakeFieldNumber(old(stream.View()), last))
  {
    var flag :- stream.GetBits(1);
    if flag != 0 {
      return Ok(Wrap32(last + 1));
    }
    var value :- stream.ReadVar35();
    if value == END_CODE {
      r := Ok(END_OF_FIELDS);
    } else {
      r := Ok(Wrap32(last + Wrap32(value as int + 1)));
    }
  }

  /** read_field_list on the stream. */
  method ReadFieldList(stream: Bitstream) returns (r: Result<seq<U32>>)
    requires stream.Valid()
    modifies stream
    ensures stream.Valid() && Agrees(r, stream.View(), TakeFieldList(old(stream.View())))
  {
    var fields: seq<U32> := [];
    var last :- ReadFieldNumber(stream, NO_ID);
    ghost var total := FieldsAfter(stream.View(), last);
    assert total == TakeFieldList(old(stream.View()));
    assert Listed([], total) == total by {
      if total.Ok? {
        assert [] + total.value.value == total.value.value;
      }
    }
    while last != END_OF_FIELDS
      invariant stream.Valid()
      invariant total == Listed(fields, FieldsAfter(stream.View(), last))
      decreases stream.end - stream.position
    {
      ghost var before := stream.View();
      var next := ReadFieldNumber(stream, last);
      FieldListStep(before, last, fields, next, stream.View(), total);
      if next.Err? {
        return Err(next.error);
      }
      fields := fields + [last];
      last := next.value;
    }
    assert fields + [] == fields;
    r := Ok(fields);
  }
}
