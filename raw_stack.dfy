/** The virtual machine's value stack `RawStack`: a fixed array of `STACK_MAX`
    optional slots, the number `size` of live slots, and a raw pointer into the
    array, modelled here as the integer offset `ptr` from the array's start. */
module Stack {
  import opened Common
  import opened RoxValue

  const STACK_MAX: nat := 256

  /** The values of slots that all hold one. */
  function Unwrap(slots: seq<Option<Value>>): (r: seq<Value>)
    requires forall i :: 0 <= i < |slots| ==> slots[i].Some?
  {
    seq(|slots|, i requires 0 <= i < |slots| => slots[i].value)
  }

  function Rendered(vs: seq<Value>, render: Value -> string): (r: seq<string>) {
    seq(|vs|, i requires 0 <= i < |vs| => render(vs[i]))
  }

  /** `xs` separated by `sep`. */
  function Join(xs: seq<string>, sep: string): (s: string) {
    if |xs| == 0 then ""
    else if |xs| == 1 then xs[0]
    else Join(xs[..|xs| - 1], sep) + sep + xs[|xs| - 1]
  }

  /** What the `Display` loop writes for slot `i` of `n` live slots: the rendered
      value, followed by ", " unless it is the last slot; nothing for an empty slot. */
  function Piece(slot: Option<Value>, i: nat, n: nat, render: Value -> string): (s: string) {
    match slot
    case None => ""
    case Some(v) => render(v) + (if i < n - 1 then ", " else "")
  }

  /** The text the `Display` loop has written after its first `k` of the slots `slots`. */
  function Listing(slots: seq<Option<Value>>, k: nat, render: Value -> string): (s: string)
    requires k <= |slots|
  {
    if k == 0 then "" else Listing(slots, k - 1, render) + Piece(slots[k - 1], k - 1, |slots|, render)
  }

  /** When every slot holds a value, the loop writes the values joined by ", "
      (with a trailing separator while it is not yet at the last one). */
  lemma {:induction false} ListingOfLive(slots: seq<Option<Value>>, k: nat, render: Value -> string)
    requires k <= |slots|
    requires forall i :: 0 <= i < |slots| ==> slots[i].Some?
    ensures Listing(slots, k, render)
         == Join(Rendered(Unwrap(slots), render)[..k], ", ") + (if 0 < k < |slots| then ", " else "")
  {
    if k > 0 {
      ListingOfLive(slots, k - 1, render);
      var rs := Rendered(Unwrap(slots), render);
      assert rs[..k][..k - 1] == rs[..k - 1];
      assert rs[..k][k - 1] == render(slots[k - 1].value);
    }
  }

  class RawStack {
    const values: array<Option<Value>>
    var size: nat
    var ptr: int

    /** What every operation keeps. The pointer never sits below `size`: push and
        pop move both by one, and reset lowers only `size`. */
    ghost predicate Valid()
      reads this
    {
      values.Length == STACK_MAX && size <= ptr <= STACK_MAX
    }

    /** The stack as the virtual machine means it: the pointer is one past the last
        live slot and every live slot holds a value. `ResetStack` can break this. */
    ghost predicate Consistent()
      reads this, values
      requires Valid()
    {
      ptr == size && forall i :: 0 <= i < size ==> values[i].Some?
    }

    /** The live values, bottom first. */
    ghost function Contents(): (c: seq<Value>)
      reads this, values
      requires Valid() && Consistent()
    {
      Unwrap(values[..size])
    }

    /** `RawStack::new`: every slot empty, nothing live, the pointer at the base. */
    constructor ()
      ensures Valid() && Consistent() && fresh(values)
      ensures size == 0 && ptr == 0 && Contents() == []
      ensures forall i :: 0 <= i < STACK_MAX ==> values[i] == None
    {
      values := new Option<Value>[STACK_MAX](_ => None);
      size := 0;
      ptr := 0;
    }

    /** `reset_stack` as written: `size` drops to 0 and slot 0 is copied into the
        slot the pointer designates, but the pointer itself stays where it was. */
    method ResetStack() returns (r: Exec<()>)
      requires Valid()
      modifies this, values
      ensures Valid() && size == 0 && ptr == old(ptr)
      ensures old(ptr) < STACK_MAX ==>
                r == Returned(()) && values[..] == old(values[..])[old(ptr) := old(values[0])]
      ensures old(ptr) == STACK_MAX ==> r == Aborted(OutOfBounds(STACK_MAX)) && unchanged(values)
      ensures old(Consistent()) && old(size) > 0 ==> !Consistent()
      ensures old(Consistent()) && old(size) == 0 ==> Consistent() && Contents() == []
    {
      size := 0;
      if ptr == STACK_MAX {
        r := Aborted(OutOfBounds(STACK_MAX));
        return;
      }
      values[ptr] := values[size];
      r := Returned(());
    }

    /** `reset_stack` as evidently intended: empty the stack and move the pointer
        back to the base. */
    method ResetStackFixed()
      requires Valid()
      modifies this
      ensures Valid() && Consistent() && Contents() == [] && ptr == 0
      ensures unchanged(values)
    {
      size := 0;
      ptr := 0;
    }

    /** `peek` as written. Its guard rejects only `distance > size`, so
        `distance == size` reads the slot just below the array. */
    function Peek(distance: nat): (r: Exec<Value>)
      reads this, values
      requires Valid()
      ensures distance > size ==> r == Aborted(Panic("Cannot peek beyond bottom of stack!"))
      ensures Consistent() && distance < size ==> r == Returned(Contents()[size - 1 - distance])
      ensures Consistent() && distance == size ==> r == Aborted(OutOfBounds(-1))
      ensures r.Returned? ==> distance <= size
    {
      if distance > size then Aborted(Panic("Cannot peek beyond bottom of stack!"))
      else
        var offset := ptr - 1 - distance;
        if offset < 0 then Aborted(OutOfBounds(offset))
        else
          match values[offset]
          case None => Aborted(Panic("Error peeking value from stack"))
          case Some(v) => Returned(v)
    }

    /** `peek` with the guard the tests expect: any `distance >= size` panics, so
        the read never leaves the array, whatever state the stack is in. */
    function PeekChecked(distance: nat): (r: Exec<Value>)
      reads this, values
      requires Valid()
      ensures distance >= size ==> r == Aborted(Panic("Cannot peek beyond bottom of stack!"))
      ensures r.Aborted? ==> r.failure.Panic?
      ensures Consistent() ==> (r.Returned? <==> distance < size)
      ensures Consistent() && distance < size ==> r == Returned(Contents()[size - 1 - distance])
    {
      if distance >= size then Aborted(Panic("Cannot peek beyond bottom of stack!"))
      else
        match values[ptr - 1 - distance]
        case None => Aborted(Panic("Error peeking value from stack"))
        case Some(v) => Returned(v)
    }

    /** `push`: panics on a full stack; otherwise stores the value where the pointer
        designates and moves `size` and the pointer up by one. */
    method Push(value: Value) returns (r: Exec<()>)
      requires Valid()
      modifies this, values
      ensures Valid()
      ensures old(size) == STACK_MAX ==>
                r == Aborted(Panic("Cannot push beyond maximum stack size of 256")) &&
                unchanged(this) && unchanged(values)
      ensures old(size) < STACK_MAX && old(ptr) == STACK_MAX ==>
                r == Aborted(OutOfBounds(STACK_MAX)) && unchanged(this) && unchanged(values)
      ensures old(size) < STACK_MAX && old(ptr) < STACK_MAX ==>
                r == Returned(()) && size == old(size) + 1 && ptr == old(ptr) + 1 &&
                values[..] == old(values[..])[old(ptr) := Some(value)]
      ensures old(Consistent()) && old(size) < STACK_MAX ==>
                r == Returned(()) && Consistent() && Contents() == old(Contents()) + [value]
    {
      if size == STACK_MAX {
        r := Aborted(Panic("Cannot push beyond maximum stack size of 256"));
        return;
      }
      if ptr == STACK_MAX {
        r := Aborted(OutOfBounds(STACK_MAX));
        return;
      }
      values[ptr] := Some(value);
      size := size + 1;
      ptr := ptr + 1;
      r := Returned(());
    }

    /** `pop`: moves the pointer and `size` down by one and returns what the slot
        below the old pointer holds (an `Err` when it is empty). The slots are not
        changed. On an empty stack the read falls below the array. The pointer moves
        before `size` is decremented, so a panic on that decrement leaves it moved. */
    method Pop() returns (r: Exec<Result<Value>>)
      requires Valid()
      modifies this
      ensures Valid()
      ensures old(ptr) == 0 ==> r == Aborted(OutOfBounds(-1)) && unchanged(this)
      ensures old(ptr) > 0 && old(size) == 0 ==>
                r == Aborted(Panic("attempt to subtract with overflow")) && ptr == old(ptr) - 1 && size == 0
      ensures old(size) > 0 ==>
                ptr == old(ptr) - 1 && size == old(size) - 1 &&
                r == Returned(match values[ptr]
                              case Some(v) => Ok(v)
                              case None => Err("Cannot pop from empty VM stack!"))
      ensures old(Consistent()) && old(size) > 0 ==>
                Consistent() && r == Returned(Ok(old(Contents())[old(size) - 1])) &&
                Contents() == old(Contents())[..old(size) - 1]
      ensures old(Consistent()) && old(size) == 0 ==> r.Aborted?
    {
      if ptr == 0 {
        r := Aborted(OutOfBounds(-1));
        return;
      }
      var v := values[ptr - 1];
      ptr := ptr - 1;
      if size == 0 {
        r := Aborted(Panic("attempt to subtract with overflow"));
        return;
      }
      size := size - 1;
      match v {
        case Some(x) => r := Returned(Ok(x));
        case None => r := Returned(Err("Cannot pop from empty VM stack!"));
      }
    }

    /** `Display`: the live slots bottom first, between brackets, separated by ", ";
        each value is rendered by `render`. */
    method Show(render: Value -> string) returns (s: string)
      requires Valid()
      ensures s == "[" + Listing(values[..size], size, render) + "]"
      ensures Consistent() ==> s == "[" + Join(Rendered(Contents(), render), ", ") + "]"
    {
      s := "[";
      for i := 0 to size
        invariant s == "[" + Listing(values[..size], i, render)
      {
        match values[i] {
          case Some(v) =>
            s := s + render(v);
            if i < size - 1 {
              s := s + ", ";
            }
          case None =>
        }
      }
      s := s + "]";
      if Consistent() {
        ListingOfLive(values[..size], size, render);
        assert Rendered(Unwrap(values[..size]), render)[..size] == Rendered(Contents(), render);
      }
    }
  }

  /** The guard of `peek` lets `distance == size` through on every well-formed
      stack, and the read it then makes lies one slot below the array. */
  lemma PeekGuardAdmitsSize(s: RawStack)
    requires s.Valid() && s.Consistent()
    ensures s.Peek(s.size) == Aborted(OutOfBounds(-1))
    ensures s.PeekChecked(s.size).Aborted? && s.PeekChecked(s.size).failure.Panic?
  {
  }

  lemma JoinThree(x: string, y: string, z: string, sep: string)
    ensures Join([x, y, z], sep) == x + sep + y + sep + z
  {
    var xs := [x, y, z];
    assert xs[..2] == [x, y] && xs[..2][..1] == [x];
    assert Join([x], sep) == x;
    assert Join([x, y], sep) == x + sep + y;
  }

  /** A new stack after pushing `a`, `b`, `c` in that order. */
  method PushThree(a: Value, b: Value, c: Value) returns (s: RawStack)
    ensures fresh(s) && fresh(s.values) && s.Valid() && s.Consistent()
    ensures s.Contents() == [a, b, c]
  {
    s := new RawStack();
    var _ := s.Push(a);
    var _ := s.Push(b);
    var _ := s.Push(c);
  }

  /** Last in, first out: on any consistent stack with room, popping right after a
      push returns the pushed value and leaves the same live values. */
  method PushThenPop(s: RawStack, value: Value) returns (r: Exec<Result<Value>>)
    requires s.Valid() && s.Consistent() && s.size < STACK_MAX
    modifies s, s.values
    ensures s.Valid() && s.Consistent()
    ensures r == Returned(Ok(value))
    ensures s.size == old(s.size) && s.Contents() == old(s.Contents())
  {
    var _ := s.Push(value);
    r := s.Pop();
    assert old(s.Contents()) + [value] == s.Contents() + [value];
  }

  /** The `test_peek` and `test_peek_panic` tests: after pushing `a`, `b`, `c`,
      distances 0, 1, 2 give `c`, `b`, `a`; distance 3, which the test expects to
      panic, passes the guard and reads one slot below the array. */
  method PeekScenario(a: Value, b: Value, c: Value)
    returns (p0: Exec<Value>, p1: Exec<Value>, p2: Exec<Value>, p3: Exec<Value>)
    ensures p0 == Returned(c) && p1 == Returned(b) && p2 == Returned(a)
    ensures p3 == Aborted(OutOfBounds(-1))
  {
    var s := PushThree(a, b, c);
    p0, p1, p2, p3 := s.Peek(0), s.Peek(1), s.Peek(2), s.Peek(3);
  }

  /** The `test_push` test: after pushing `a`, `b`, `c` the display lists them
      bottom first. */
  method DisplayScenario(a: Value, b: Value, c: Value, render: Value -> string) returns (shown: string)
    ensures shown == "[" + render(a) + ", " + render(b) + ", " + render(c) + "]"
  {
    var s := PushThree(a, b, c);
    shown := s.Show(render);
    assert Rendered(s.Contents(), render) == [render(a), render(b), render(c)];
    JoinThree(render(a), render(b), render(c), ", ");
  }

  /** The `test_pop` test: after pushing `a`, `b`, `c`, three pops return them in
      reverse order and a fourth fails. */
  method PopScenario(a: Value, b: Value, c: Value) returns (pops: seq<Exec<Result<Value>>>)
    ensures pops == [Returned(Ok(c)), Returned(Ok(b)), Returned(Ok(a)), Aborted(OutOfBounds(-1))]
  {
    var s := PushThree(a, b, c);
    var q0 := s.Pop();
    var q1 := s.Pop();
    var q2 := s.Pop();
    var q3 := s.Pop();
    pops := [q0, q1, q2, q3];
  }

  /** The scenario of `test_max_stack_panics`: of `STACK_MAX + 1` pushes onto a new
      stack, all but the last succeed and the last panics. */
  method OverflowScenario(value: nat -> Value) returns (results: seq<Exec<()>>)
    ensures |results| == STACK_MAX + 1
    ensures forall i :: 0 <= i < STACK_MAX ==> results[i] == Returned(())
    ensures results[STACK_MAX] == Aborted(Panic("Cannot push beyond maximum stack size of 256"))
  {
    var s := new RawStack();
    results := [];
    for i := 0 to STACK_MAX + 1
      invariant s.Valid() && s.Consistent() && fresh(s.values)
      invariant s.size == if i <= STACK_MAX then i else STACK_MAX
      invariant |results| == i
      invariant forall k :: 0 <= k < i && k < STACK_MAX ==> results[k] == Returned(())
      invariant i == STACK_MAX + 1 ==> results[STACK_MAX] == Aborted(Panic("Cannot push beyond maximum stack size of 256"))
    {
      var r := s.Push(value(i));
      results := results + [r];
    }
  }

  /** What the reset bug does: after two pushes, a reset and one more push, the
      top of the stack is the new value, yet the display shows the stale bottom
      value left in slot 0. */
  method ResetScenario(a: Value, b: Value, c: Value, render: Value -> string)
    returns (top: Exec<Value>, shown: string)
    ensures top == Returned(c) && shown == "[" + render(a) + "]"
  {
    var s := new RawStack();
    var _ := s.Push(a);
    var _ := s.Push(b);
    var _ := s.ResetStack();
    assert s.ptr == 2 && s.size == 0 && s.values[0] == Some(a);
    var _ := s.Push(c);
    assert s.ptr == 3 && s.size == 1 && s.values[2] == Some(c) && s.values[0] == Some(a);
    top := s.Peek(0);
    shown := s.Show(render);
    assert s.values[..s.size] == [Some(a)];
  }

  /** The same steps with the fixed reset: the display shows the new value. */
  method ResetFixedScenario(a: Value, b: Value, c: Value, render: Value -> string)
    returns (top: Exec<Value>, shown: string)
    ensures top == Returned(c) && shown == "[" + render(c) + "]"
  {
    var s := new RawStack();
    var _ := s.Push(a);
    var _ := s.Push(b);
    s.ResetStackFixed();
    var _ := s.Push(c);
    assert s.Contents() == [c];
    top := s.Peek(0);
    shown := s.Show(render);
    assert Rendered(s.Contents(), render) == [render(c)];
  }
}
