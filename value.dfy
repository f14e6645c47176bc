/** The interpreter's runtime values (`Value`), the type dispatch of their equality,
    ordering and arithmetic, and the constant pool `Values` with its optional
    deduplication of global names. */
module RoxValue {
  import opened Common

  /** The interpreter's number, a wrapper of a 32-bit float. Its arithmetic and
      comparisons are not modelled: every operation below that needs them takes
      them as a parameter. */
  type RoxNumber

  type RoxString = string

  /** The only object kind the shown code matches on. */
  datatype ObjectType = ObjString(str: RoxString)

  datatype RoxObject = RoxObject(objectType: ObjectType)

  datatype Value =
    | Number(num: RoxNumber)
    | Boolean(b: bool)
    | Nil
    | Object(obj: RoxObject)
    | Error

  datatype Ordering = Less | Equal | Greater

  /** The four arithmetic operator impls share one shape; `BinaryOp` says which. */
  datatype BinaryOp = Add | Sub | Mul | Div

  function StringValue(s: RoxString): (v: Value) {
    Object(RoxObject(ObjString(s)))
  }

  /** `impl PartialEq for Value`: variant-wise comparison; numbers compare with the
      number type's own equality `numEq`; `Error` equals nothing. */
  function Eq(a: Value, b: Value, numEq: (RoxNumber, RoxNumber) -> bool): (r: bool)
    ensures a.Error? || b.Error? ==> !r
    ensures a.Number? && b.Number? ==> (r <==> numEq(a.num, b.num))
    ensures !(a.Number? && b.Number?) ==> (r <==> a == b && !a.Error?)
  {
    match a
    case Number(x) => (match b case Number(y) => numEq(x, y) case _ => false)
    case Boolean(p) => (match b case Boolean(q) => p == q case _ => false)
    case Nil => b.Nil?
    case Object(o) =>
      (match b
       case Object(o2) => o.objectType.str == o2.objectType.str
       case _ => false)
    case Error => false
  }

  /** Rust's `PartialEq` asks for a symmetric and transitive relation. `Eq` is one
      whenever the number equality is, and it is reflexive exactly on the values
      that are neither `Error` nor a number its own equality rejects (a NaN). */
  lemma EqIsPartialEquivalence(numEq: (RoxNumber, RoxNumber) -> bool, a: Value, b: Value, c: Value)
    requires forall x, y :: numEq(x, y) == numEq(y, x)
    requires forall x, y, z :: numEq(x, y) && numEq(y, z) ==> numEq(x, z)
    ensures Eq(a, b, numEq) == Eq(b, a, numEq)
    ensures Eq(a, b, numEq) && Eq(b, c, numEq) ==> Eq(a, c, numEq)
    ensures Eq(a, a, numEq) <==> (a.Number? ==> numEq(a.num, a.num)) && !a.Error?
  {
    if a.Number? && b.Number? && c.Number? {
      assert Eq(a, b, numEq) && Eq(b, c, numEq) ==> numEq(a.num, c.num);
    }
  }

  /** `impl PartialOrd for Value`: only two numbers are ordered. */
  function PartialCmp(a: Value, b: Value, numCmp: (RoxNumber, RoxNumber) -> Option<Ordering>): (r: Option<Ordering>)
    ensures r.Some? ==> a.Number? && b.Number? && r == numCmp(a.num, b.num)
    ensures a.Number? && b.Number? ==> r == numCmp(a.num, b.num)
  {
    match a
    case Number(x) => (match b case Number(y) => numCmp(x, y) case _ => None)
    case _ => None
  }

  /** `impl Neg for Value`: a number is negated by `negate`; anything else is `Error`. */
  function Neg(v: Value, negate: RoxNumber -> RoxNumber): (r: Value)
    ensures r.Number? <==> v.Number?
    ensures !v.Number? ==> r == Error
    ensures v.Number? ==> r.num == negate(v.num)
  {
    match v
    case Number(x) => Number(negate(x))
    case _ => Error
  }

  /** `impl Add`, `Sub`, `Mul` and `Div for Value`: two numbers give a number
      computed by `arith`; an operand of any other variant gives `Error`. */
  function Binary(op: BinaryOp, lhs: Value, rhs: Value, arith: (BinaryOp, RoxNumber, RoxNumber) -> RoxNumber): (r: Value)
    ensures r.Error? <==> !(lhs.Number? && rhs.Number?)
    ensures r.Number? || r.Error?
    ensures r.Number? ==> r.num == arith(op, lhs.num, rhs.num)
  {
    match lhs
    case Number(x) => (match rhs case Number(y) => Number(arith(op, x, y)) case _ => Error)
    case _ => Error
  }

  /** An arithmetic error spreads through a nested expression, and the value it
      leaves never compares equal to anything. */
  lemma ErrorPropagates(op1: BinaryOp, op2: BinaryOp, a: Value, b: Value, c: Value,
                        arith: (BinaryOp, RoxNumber, RoxNumber) -> RoxNumber,
                        numEq: (RoxNumber, RoxNumber) -> bool, other: Value)
    requires !(a.Number? && b.Number? && c.Number?)
    ensures Binary(op2, Binary(op1, a, b, arith), c, arith) == Error
    ensures !Eq(Binary(op2, Binary(op1, a, b, arith), c, arith), other, numEq)
    ensures !Eq(other, Binary(op2, Binary(op1, a, b, arith), c, arith), numEq)
  {
  }

  /** The table of global names is faithful to the pool: every name maps to an
      index in range that holds that name's string value. */
  ghost predicate Indexed(globals: map<RoxString, nat>, values: seq<Value>) {
    forall s :: s in globals ==> globals[s] < |values| && values[globals[s]] == StringValue(s)
  }

  lemma IndexedAppend(globals: map<RoxString, nat>, values: seq<Value>, v: Value)
    requires Indexed(globals, values)
    ensures Indexed(globals, values + [v])
  {
    forall s | s in globals
      ensures globals[s] < |values + [v]| && (values + [v])[globals[s]] == StringValue(s)
    {
    }
  }

  lemma IndexedInsert(globals: map<RoxString, nat>, values: seq<Value>, s: RoxString)
    requires Indexed(globals, values)
    ensures Indexed(globals[s := |values|], values + [StringValue(s)])
  {
    var g, vs := globals[s := |values|], values + [StringValue(s)];
    forall t | t in g
      ensures g[t] < |vs| && vs[g[t]] == StringValue(t)
    {
      if t != s {
        assert g[t] == globals[t];
      }
    }
  }

  /** The constant pool: an append-only sequence of values and its length. */
  class Values {
    var count: nat
    var values: seq<Value>

    ghost predicate Valid()
      reads this
    {
      count == |values|
    }

    constructor ()
      ensures Valid() && values == [] && count == 0
    {
      count := 0;
      values := [];
    }

    /** `write_value`: appends `value` and returns its index. Given the table of
        global names, a string already in the table is not appended again: its
        recorded index is returned instead (and an index outside the pool panics);
        a new string is appended and recorded. The returned table is the table
        after the call. */
    method WriteValue(value: Value, globals: Option<map<RoxString, nat>>)
      returns (r: Exec<nat>, globals': Option<map<RoxString, nat>>)
      requires Valid()
      modifies this
      ensures Valid()
      ensures old(values) <= values
      ensures r.Returned? ==> r.value < |values|
      ensures globals.None? || !value.Object? ==>
                r == Returned(old(count)) && values == old(values) + [value] && globals' == globals
      ensures globals.Some? && value.Object? && value.obj.objectType.str in globals.value ==>
                var idx := globals.value[value.obj.objectType.str];
                globals' == globals && values == old(values) &&
                r == if idx < old(count) then Returned(idx) else Aborted(Panic("Error finding global"))
      ensures globals.Some? && value.Object? && value.obj.objectType.str !in globals.value ==>
                r == Returned(old(count)) && values == old(values) + [value] &&
                globals' == Some(globals.value[value.obj.objectType.str := old(count)])
      ensures globals.Some? && Indexed(globals.value, old(values)) ==>
                globals'.Some? && Indexed(globals'.value, values) && r.Returned? && values[r.value] == value
    {
      if globals.Some? && value.Object? {
        var name := value.obj.objectType.str;
        var table := globals.value;
        if name in table {
          var idx := table[name];
          if idx < |values| {
            r := Returned(idx);
          } else {
            r := Aborted(Panic("Error finding global"));
          }
          globals' := globals;
          return;
        }
        ghost var before := values;
        values := values + [value];
        count := count + 1;
        var index := count - 1;
        globals' := Some(table[name := index]);
        r := Returned(index);
        if Indexed(table, before) {
          IndexedInsert(table, before, name);
        }
        return;
      }
      ghost var before := values;
      values := values + [value];
      count := count + 1;
      r := Returned(count - 1);
      globals' := globals;
      if globals.Some? && Indexed(globals.value, before) {
        IndexedAppend(globals.value, before, value);
      }
    }
  }
}
