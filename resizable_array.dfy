/** The growable buffer of src/resizable_array.h, with its default index type
    `unsigned int` (32 bits): `data` holds `length` elements and grows in whole
    steps of `growth`. A null `data` is an array of length 0. */
module Resizable {
  import opened Wrappers
  import opened Bits

  /** The length grow(min) reaches from `length` by adding `growth` until it is at
      least `min`, ignoring the 32-bit bound. */
  function GrownLength(length: nat, growth: nat, min: nat): nat
    requires growth > 0
    decreases min - length
  {
    if min <= length then length else GrownLength(length + growth, growth, min)
  }

  /** GrownLength is the least length >= min reachable from `length` in whole
      steps of `growth`, and is `length` itself when that is already enough. */
  lemma {:induction false} GrownLengthSpec(length: nat, growth: nat, min: nat)
    requires growth > 0
    ensures GrownLength(length, growth, min) >= min && GrownLength(length, growth, min) >= length
    ensures exists steps: nat :: GrownLength(length, growth, min) == length + steps * growth
    ensures min <= length ==> GrownLength(length, growth, min) == length
    ensures min > length ==> GrownLength(length, growth, min) >= length + growth
    ensures min > length ==> GrownLength(length, growth, min) - growth < min
    decreases min - length
  {
    if min <= length {
      assert GrownLength(length, growth, min) == length + 0 * growth;
    } else {
      GrownLengthSpec(length + growth, growth, min);
      var steps: nat :| GrownLength(length + growth, growth, min) == length + growth + steps * growth;
      assert GrownLength(length, growth, min) == length + (steps + 1) * growth;
    }
  }

  /** The overflow test `(I)(growth + length) > length` passes exactly when the sum
      does not wrap. */
  lemma {:induction false} NoWrapTest(growth: U32, length: U32)
    requires growth > 0
    ensures Wrap32(growth + length) > length <==> growth + length < TWO_32
  {
    if growth + length >= TWO_32 {
      assert Wrap32(growth + length) == growth + length - TWO_32;
    }
  }

  class ResizableArray<T(0)> {
    var data: array<T>
    const growth: U32
    var length: U32

    ghost predicate Valid()
      reads this
    {
      growth > 0 && data.Length == length
    }

    /** ResizableArray(growth, length): `length` default elements; growth 0 is
        refused. */
    constructor (growth: U32, length: U32)
      requires growth > 0
      ensures Valid() && this.growth == growth && this.length == length && fresh(data)
    {
      this.growth := growth;
      data := new T[length];
      this.length := length;
    }

    /** The copy constructor: a fresh buffer with the same growth and elements. */
    constructor Copy(that: ResizableArray<T>)
      requires that.Valid()
      ensures Valid() && growth == that.growth && length == that.length
      ensures fresh(data) && data[..] == that.data[..]
    {
      growth := that.growth;
      var copied := new T[that.length];
      forall i | 0 <= i < that.length {
        copied[i] := that.data[i];
      }
      data := copied;
      length := that.length;
    }

    /** The move constructor: takes over the buffer and leaves `that` empty. */
    constructor Move(that: ResizableArray<T>)
      requires that.Valid()
      modifies that
      ensures Valid() && growth == that.growth && data == old(that.data) && length == old(that.length)
      ensures that.Valid() && that.length == 0 && that.data.Length == 0
    {
      growth := that.growth;
      data := that.data;
      length := that.length;
      new;
      that.length := 0;
      that.data := new T[0];
    }

    /** operator[] read: the element at an index below `length`; fails otherwise. */
    function At(i: U32): (r: Result<T>)
      reads this, data
      requires Valid()
      ensures r.Ok? <==> i < length
      ensures r.Ok? ==> r.value == data[i]
    {
      if i < length then Ok(data[i]) else Err(FormatViolation("Index out of bounds"))
    }

    /** operator[] write through the returned reference. */
    method Put(i: U32, value: T) returns (o: Outcome)
      requires Valid()
      modifies data
      ensures Valid() && (o.Pass? <==> i < length)
      ensures o.Pass? ==> data[..] == old(data[..])[i := value]
      ensures o.Fail? ==> data[..] == old(data[..])
    {
      if i >= length {
        return Fail(FormatViolation("Index out of bounds"));
      }
      data[i] := value;
      o := Pass;
    }

    /** grow(min): raise `length` in steps of `growth` until it is at least `min`,
        failing when a step would wrap, then move the old elements into a new buffer. */
    method Grow(min: U32) returns (o: Outcome)
      requires Valid()
      modifies this
      ensures o.Pass? <==> GrownLength(old(length), growth, min) < TWO_32
      ensures o.Pass? ==> Valid() && old(length) <= length == GrownLength(old(length), growth, min)
      ensures o.Pass? ==> fresh(data) && data[..old(length)] == old(data[..])
    {
      var previous := data;
      var oldLength := length;
      GrownLengthSpec(length, growth, min);
      while length < min
        invariant oldLength <= length
        invariant GrownLength(length, growth, min) == GrownLength(oldLength, growth, min)
        invariant previous == old(data) && previous[..] == old(data[..])
        decreases min - length
      {
        GrownLengthSpec(length, growth, min);
        NoWrapTest(growth, length);
        if Wrap32(growth + length) <= length {
          return Fail(FormatViolation("Cannot grow vector any further."));
        }
        length := length + growth;
      }
      GrownLengthSpec(length, growth, min);
      data := new T[length];
      forall i | 0 <= i < oldLength {
        data[i] := previous[i];
      }
      o := Pass;
    }

    /** ensure_space(amount): grows only when amount >= length. */
    method EnsureSpace(amount: U32) returns (o: Outcome)
      requires Valid()
      modifies this
      ensures amount < old(length) ==> o.Pass? && length == old(length) && data == old(data)
      ensures amount < old(length) ==> data[..] == old(data[..])
      ensures amount >= old(length) ==> (o.Pass? <==> GrownLength(old(length), growth, amount) < TWO_32)
      ensures o.Pass? ==> Valid() && old(length) <= length == GrownLength(old(length), growth, amount)
      ensures o.Pass? ==> data[..old(length)] == old(data[..])
    {
      if amount >= length {
        o := Grow(amount);
      } else {
        GrownLengthSpec(length, growth, amount);
        o := Pass;
      }
    }
  }
}
