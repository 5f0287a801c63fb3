/** `SettingsArray<T, SIZE>`: a fixed-size array of settings with one selected
    slot, used for the countdown presets and for the plus/minus step intervals. */
module SettingsArrays {

  /** The outcome of a selection change: whether it succeeded, and the
      selected index afterwards. */
  datatype Move = Move(ok: bool, index: int)

  /** `setIndex(i)` on an array of `size` slots whose selection is `index`. */
  function SelectMove(index: int, size: int, i: int): (m: Move)
    requires 0 <= index < size
    ensures 0 <= m.index < size
    ensures m.ok <==> 0 <= i < size
    ensures m.ok ==> m.index == i
    ensures !m.ok ==> m.index == index
  {
    if i < 0 || i >= size then Move(false, index) else Move(true, i)
  }

  /** `next(cyclic)`: one slot forward; at the last slot it wraps to the
      first when `cyclic`, and otherwise fails. */
  function NextMove(index: int, size: int, cyclic: bool): (m: Move)
    requires 0 <= index < size
    ensures 0 <= m.index < size
    ensures m.ok <==> index + 1 < size || cyclic
    ensures m.ok ==> m.index == (index + 1) % size
    ensures !m.ok ==> m.index == index
  {
    if index + 1 >= size then
      if cyclic then Move(true, 0) else Move(false, index)
    else
      Move(true, index + 1)
  }

  /** `prev(cyclic)`: one slot back; at the first slot it wraps to the last
      when `cyclic`, and otherwise fails. */
  function PrevMove(index: int, size: int, cyclic: bool): (m: Move)
    requires 0 <= index < size
    ensures 0 <= m.index < size
    ensures m.ok <==> 0 < index || cyclic
    ensures m.ok ==> m.index == (index - 1) % size
    ensures !m.ok ==> m.index == index
  {
    if index - 1 < 0 then
      if cyclic then Move(true, size - 1) else Move(false, index)
    else
      Move(true, index - 1)
  }

  /** A cyclic step undoes the other direction's cyclic step. */
  lemma NextPrevInverse(index: int, size: int)
    requires 0 <= index < size
    ensures PrevMove(NextMove(index, size, true).index, size, true).index == index
    ensures NextMove(PrevMove(index, size, true).index, size, true).index == index
  {
  }

  /** The selection after `n` cyclic steps, forward or back. */
  function Walk(index: int, size: int, forward: bool, n: nat): (r: int)
    requires 0 <= index < size
    ensures 0 <= r < size
    decreases n
  {
    if n == 0 then index
    else
      var m := if forward then NextMove(index, size, true) else PrevMove(index, size, true);
      Walk(m.index, size, forward, n - 1)
  }

  /** Walking `a` steps and then `b` steps is walking `a + b` steps. */
  lemma {:induction false} WalkAdd(index: int, size: int, forward: bool, a: nat, b: nat)
    requires 0 <= index < size
    ensures Walk(index, size, forward, a + b) == Walk(Walk(index, size, forward, a), size, forward, b)
    decreases a
  {
    if a > 0 {
      var m := if forward then NextMove(index, size, true) else PrevMove(index, size, true);
      WalkAdd(m.index, size, forward, a - 1, b);
    }
  }

  /** Away from the last slot, `k` forward steps add `k`. */
  lemma {:induction false} WalkUp(index: int, size: int, k: nat)
    requires 0 <= index && index + k < size
    ensures Walk(index, size, true, k) == index + k
    decreases k
  {
    if k > 0 {
      WalkUp(index + 1, size, k - 1);
    }
  }

  /** Away from the first slot, `k` backward steps subtract `k`. */
  lemma {:induction false} WalkDown(index: int, size: int, k: nat)
    requires 0 <= index - k && index < size
    ensures Walk(index, size, false, k) == index - k
    decreases k
  {
    if k > 0 {
      WalkDown(index - 1, size, k - 1);
    }
  }

  /** `SIZE` consecutive `next(true)` calls, or `SIZE` consecutive `prev(true)`
      calls, bring the selection back to where it started. */
  lemma FullCycle(index: int, size: int, forward: bool)
    requires 0 <= index < size
    ensures Walk(index, size, forward, size) == index
  {
    if forward {
      WalkAdd(index, size, true, size - 1 - index, index + 1);
      WalkUp(index, size, size - 1 - index);
      assert Walk(size - 1, size, true, index + 1) == Walk(0, size, true, index);
      WalkUp(0, size, index);
    } else {
      WalkAdd(index, size, false, index, size - index);
      WalkDown(index, size, index);
      assert Walk(0, size, false, size - index) == Walk(size - 1, size, false, size - index - 1);
      WalkDown(size - 1, size, size - index - 1);
    }
  }

  /** Without wrap-around, a run of `next()` calls from any slot succeeds until
      it reaches the last slot and fails there, and a run of `prev()` calls
      does the same at slot 0; a failed call changes nothing. */
  lemma NonCyclicStops(index: int, size: int)
    requires 0 <= index < size
    // every non-cyclic step short of the end succeeds, just as the cyclic one does
    ensures forall j :: 0 <= j < size - 1 ==> NextMove(j, size, false) == NextMove(j, size, true)
    ensures forall j :: 0 < j < size ==> PrevMove(j, size, false) == PrevMove(j, size, true)
    // so the run reaches the end slot ...
    ensures Walk(index, size, true, size - 1 - index) == size - 1
    ensures Walk(index, size, false, index) == 0
    // ... where the next non-cyclic step fails without a change
    ensures NextMove(size - 1, size, false) == Move(false, size - 1)
    ensures PrevMove(0, size, false) == Move(false, 0)
  {
    WalkUp(index, size, size - 1 - index);
    WalkDown(index, size, index);
  }

  class SettingsArray<T> {
    /** The `SIZE` slots; the array itself is never replaced. */
    const data: array<T>
    /** The selected slot. */
    var index: int

    ghost predicate Valid()
      reads this
    {
      0 <= index < data.Length
    }

    /** `T data[SIZE]{}` and `index = 0`: every slot holds the value-initialised
        `zero` of `T`, and the first slot is selected. */
    constructor (size: int, zero: T)
      requires size > 0
      ensures Valid() && fresh(data)
      ensures data.Length == size && index == 0
      ensures forall k :: 0 <= k < size ==> data[k] == zero
    {
      data := new T[size](_ => zero);
      index := 0;
    }

    method CurrentIndex() returns (i: int)
      requires Valid()
      ensures 0 <= i < data.Length && i == index
    {
      i := index;
    }

    method SetIndex(i: int) returns (ok: bool)
      requires Valid()
      modifies this
      ensures Valid()
      ensures Move(ok, index) == SelectMove(old(index), data.Length, i)
      ensures ok <==> 0 <= i < data.Length
      ensures index == if ok then i else old(index)
    {
      if i < 0 || i >= data.Length {
        return false;
      }
      index := i;
      return true;
    }

    /** Reading `current()`: the selected slot. */
    method Current() returns (v: T)
      requires Valid()
      ensures v == data[index]
    {
      v := data[index];
    }

    /** `setCurrent(v)`, and `current() = v` through the returned reference. */
    method SetCurrent(v: T)
      requires Valid()
      modifies data
      ensures Valid() && index == old(index)
      ensures data[..] == old(data[..])[index := v]
      ensures data[index] == v
      ensures forall k :: 0 <= k < data.Length && k != index ==> data[k] == old(data[k])
    {
      data[index] := v;
    }

    method Next(cyclic: bool := false) returns (ok: bool)
      requires Valid()
      modifies this
      ensures Valid() && unchanged(data)
      ensures Move(ok, index) == NextMove(old(index), data.Length, cyclic)
      ensures ok <==> old(index) + 1 < data.Length || cyclic
      ensures index == if ok then (old(index) + 1) % data.Length else old(index)
    {
      if index + 1 >= data.Length {
        if cyclic {
          index := 0;
          return true;
        } else {
          return false;
        }
      } else {
        index := index + 1;
        return true;
      }
    }

    method Prev(cyclic: bool := false) returns (ok: bool)
      requires Valid()
      modifies this
      ensures Valid() && unchanged(data)
      ensures Move(ok, index) == PrevMove(old(index), data.Length, cyclic)
      ensures ok <==> 0 < old(index) || cyclic
      ensures index == if ok then (old(index) - 1) % data.Length else old(index)
    {
      if index - 1 < 0 {
        if cyclic {
          index := data.Length - 1;
          return true;
        } else {
          return false;
        }
      } else {
        index := index - 1;
        return true;
      }
    }

    /** Reading `operator[](i)`; the source does no bounds check, so an index
        outside the array is undefined behaviour there. */
    method Get(i: int) returns (v: T)
      requires 0 <= i < data.Length
      ensures v == data[i]
    {
      v := data[i];
    }

    /** Writing through `operator[](i)`: `a[i] = v`. */
    method Set(i: int, v: T)
      requires 0 <= i < data.Length
      modifies data
      ensures data[..] == old(data[..])[i := v]
    {
      data[i] := v;
    }
  }
}
