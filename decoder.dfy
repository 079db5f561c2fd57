/** The stateful prop-index reader of src/decoder.cpp: a flag bit per index, a
    read_var_uint delta from the previous index, and an end state after which
    reading again is an error. */
module Decoders {
  import opened Wrappers
  import opened Bits
  import opened BitReader

  /** MAX_DATATABLE_PROPS: the largest index accepted. */
  const MAX_DATATABLE_PROPS: int := 4096

  /** The index after `last` for a delta `v`: `v + 1 + last` evaluated in uint32
      (the int `last` converts to uint32) and stored back into an int. It is the
      true sum exactly when that sum fits an int, and then exceeds `last`; when the
      sum overflows, the stored index does not exceed `last`. */
  function NextIndex(last: I32, v: U32): (p: I32)
    ensures last + v + 1 < 0x8000_0000 ==> p == last + v + 1
    ensures p > last <==> last + v + 1 < 0x8000_0000
  {
    var sum := last + v + 1;
    assert sum >= last + 1 && sum < 0x8000_0000 + TWO_32;
    assert sum >= 0x8000_0000 ==> Wrap32(sum) == (if sum >= TWO_32 then sum - TWO_32 else sum);
    Signed32(Wrap32(Wrap32(v as int + 1) + Wrap32(last)))
  }

  /** The decoder's state: whether the end was read, and the last index. */
  datatype DecoderState = DecoderState(eof: bool, last: I32)

  /** What read_next_prop_i returns (-1 at the end of the list) and the state it
      leaves. */
  datatype Step = Step(index: int, state: DecoderState)

  /** read_next_prop_i: an error after the end; a clear bit ends the list, returns
      -1 and sets eof; a set bit is followed by a read_var_uint delta, and the new
      index must lie in [0, 4096]. */
  function TakeNextPropI(r: Reader, s: DecoderState): (g: Result<Got<Step>>)
    ensures s.eof ==> g.Err?
    ensures g.Ok? ==> g.value.rest.bits == r.bits && r.pos < g.value.rest.pos
    ensures g.Ok? && g.value.value.index == -1 ==> g.value.value.state == s.(eof := true) && g.value.rest.pos == r.pos + 1
    ensures g.Ok? && g.value.value.index != -1 ==>
              && 0 <= g.value.value.index <= MAX_DATATABLE_PROPS
              && g.value.value.state == DecoderState(false, g.value.value.index)
  {
    if s.eof then Err(FormatViolation("Already read last prop i."))
    else
      var flag :- TakeBits(r, 1);
      if flag.value == 0 then Ok(Got(Step(-1, s.(eof := true)), flag.rest))
      else
        var v :- TakeVarUint(flag.rest);
        var prop := NextIndex(s.last, v.value);
        if 0 <= prop <= MAX_DATATABLE_PROPS then Ok(Got(Step(prop, DecoderState(false, prop)), v.rest))
        else Err(FormatViolation("Prop index is out of bounds."))
  }

  /** Two indices read one after the other: the second exceeds the first exactly
      when the delta does not overflow an int. */
  lemma {:induction false} IndicesIncrease(r: Reader, s: DecoderState, g: Got<Step>)
    requires TakeNextPropI(r, s) == Ok(g) && g.value.index != -1
    ensures TakeBits(r, 1) == Ok(Got(1, TakeBits(r, 1).value.rest))
    ensures var v := TakeVarUint(TakeBits(r, 1).value.rest);
            && v.Ok? && g.rest == v.value.rest
            && (g.value.index > s.last <==> s.last + v.value.value + 1 < 0x8000_0000)
  {
  }

  /** The Decoder class: the end flag and the last index read from the stream. */
  class Decoder {
    var eof: bool
    var lastPropI: I32
    const stream: Bitstream

    /** A fresh decoder: not at the end, last index -1. */
    constructor (stream: Bitstream)
      ensures !eof && lastPropI == -1 && this.stream == stream
    {
      eof := false;
      lastPropI := -1;
      this.stream := stream;
    }

    function State(): DecoderState
      reads this
    {
      DecoderState(eof, lastPropI)
    }

    method ReadNextPropI() returns (r: Result<int>)
      requires stream.Valid()
      modifies this, stream
      ensures stream.Valid()
      ensures match TakeNextPropI(old(stream.View()), old(State()))
              case Ok(g) => r == Ok(g.value.index) && State() == g.value.state && stream.View() == g.rest
              case Err(e) => r == Err(e)
    {
      if eof {
        return Err(FormatViolation("Already read last prop i."));
      }
      var flag :- stream.GetBits(1);
      if flag == 0 {
        eof := true;
        return Ok(-1);
      }
      var v :- stream.ReadVarUint();
      var prop := NextIndex(lastPropI, v);
      lastPropI := prop;
      if !(0 <= prop <= MAX_DATATABLE_PROPS) {
        return Err(FormatViolation("Prop index is out of bounds."));
      }
      r := Ok(prop);
    }
  }
}
