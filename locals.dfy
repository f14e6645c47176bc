/** The compiler's table of local variables `Locals`: a fixed array of `Local`
    slots of which the first `count` are declared. */
module Frontend {
  import opened Common
  import opened Tokens

  /** A slot of the table: the declaring token and the scope depth, either of
      which may be absent (`Local::default()` has neither). */
  datatype Local = Local(name: Option<Token>, depth: Option<nat>)

  /** `Local::new`: a slot with both the token and the depth present. */
  function NewLocal(name: Token, depth: nat): (l: Local)
    ensures Declared(l) && l.name.value == name && l.depth.value == depth
  {
    Local(Some(name), Some(depth))
  }

  predicate Declared(l: Local) {
    l.name.Some? && l.depth.Some?
  }

  /** The slot was declared in a scope nested deeper than `scopeDepth`. */
  predicate Deeper(l: Local, scopeDepth: nat) {
    l.depth.Some? && l.depth.value > scopeDepth
  }

  /** The slot's token is the identifier `id`. */
  predicate Names(l: Local, id: string) {
    l.name.Some? && l.name.value.tokenType.Identifier? && l.name.value.tokenType.name == id
  }

  /** How many of `slots` were declared deeper than `scopeDepth`. */
  function CountDeeper(slots: seq<Local>, scopeDepth: nat): (n: nat)
    ensures n <= |slots|
  {
    if slots == [] then 0
    else (if Deeper(slots[0], scopeDepth) then 1 else 0) + CountDeeper(slots[1..], scopeDepth)
  }

  /** Every slot is declared and depths never decrease from the bottom up: the
      shape the table has when locals are added in the scope being compiled. */
  ghost predicate WellNested(slots: seq<Local>) {
    (forall i :: 0 <= i < |slots| ==> Declared(slots[i])) &&
    (forall i, j :: 0 <= i < j < |slots| ==> slots[i].depth.value <= slots[j].depth.value)
  }

  /** In a well-nested table the locals deeper than `scopeDepth` are exactly the
      top `CountDeeper` ones, so dropping that many leaves only the enclosing scopes. */
  lemma {:induction false} NestedDeeperIsSuffix(slots: seq<Local>, scopeDepth: nat)
    requires WellNested(slots)
    ensures var k := CountDeeper(slots, scopeDepth);
            (forall i :: 0 <= i < |slots| - k ==> slots[i].depth.value <= scopeDepth) &&
            (forall i :: |slots| - k <= i < |slots| ==> slots[i].depth.value > scopeDepth)
  {
    if slots != [] {
      var rest := slots[1..];
      assert WellNested(rest) by {
        forall i, j | 0 <= i < j < |rest|
          ensures rest[i].depth.value <= rest[j].depth.value
        {
          assert rest[i] == slots[i + 1] && rest[j] == slots[j + 1];
        }
      }
      NestedDeeperIsSuffix(rest, scopeDepth);
      var k' := CountDeeper(rest, scopeDepth);
      if Deeper(slots[0], scopeDepth) {
        assert rest == [] || rest[0].depth.value > scopeDepth by {
          if rest != [] {
            assert rest[0] == slots[1];
          }
        }
        forall i | 0 <= i < |slots|
          ensures slots[i].depth.value > scopeDepth
        {
          if i > 0 {
            assert slots[i] == rest[i - 1];
          }
        }
      } else {
        forall i | 0 < i < |slots|
          ensures slots[i] == rest[i - 1]
        {
        }
      }
    }
  }

  /** What `local_is_doubly_declared` computes, scanning `slots` from the top: a
      slot of an enclosing scope (depth below `scopeDepth`) ends the scan with
      false; a named slot is compared with `target` (both must be identifiers, or
      it panics) and a match ends it with true; otherwise the scan goes on down. */
  function DoublyDeclared(slots: seq<Local>, target: Token, scopeDepth: nat): (r: Exec<bool>) {
    if slots == [] then Returned(false)
    else
      var top := slots[|slots| - 1];
      var below := slots[..|slots| - 1];
      if top.depth.Some? && top.depth.value < scopeDepth then Returned(false)
      else if top.name.None? then DoublyDeclared(below, target, scopeDepth)
      else if !top.name.value.tokenType.Identifier? then Aborted(Panic("Local string not an identifier"))
      else if !target.tokenType.Identifier? then Aborted(Panic("Looking for string not an identifier!"))
      else if top.name.value.tokenType.name == target.tokenType.name then Returned(true)
      else DoublyDeclared(below, target, scopeDepth)
  }

  /** The depth of a slot, 0 when it has none. */
  function DepthOf(l: Local): (d: nat) {
    if l.depth.Some? then l.depth.value else 0
  }

  /** Slot `i` names `id`, and neither it nor any slot above it belongs to a scope
      enclosing depth `scopeDepth`. */
  ghost predicate InScopeMatch(slots: seq<Local>, i: int, id: string, scopeDepth: nat) {
    0 <= i < |slots| && Names(slots[i], id) &&
    forall j :: i <= j < |slots| ==> DepthOf(slots[j]) >= scopeDepth
  }

  /** Below a top slot that is in scope, matches in the whole table and in the
      table without its top slot are the same. */
  lemma InScopeMatchBelow(slots: seq<Local>, i: int, id: string, scopeDepth: nat)
    requires |slots| > 0 && i < |slots| - 1
    requires DepthOf(slots[|slots| - 1]) >= scopeDepth
    ensures InScopeMatch(slots, i, id, scopeDepth) <==> InScopeMatch(slots[..|slots| - 1], i, id, scopeDepth)
  {
    var below := slots[..|slots| - 1];
    if InScopeMatch(below, i, id, scopeDepth) {
      forall j | i <= j < |slots|
        ensures DepthOf(slots[j]) >= scopeDepth
      {
        if j < |slots| - 1 {
          assert slots[j] == below[j];
        }
      }
    }
    if InScopeMatch(slots, i, id, scopeDepth) {
      forall j | i <= j < |below|
        ensures DepthOf(below[j]) >= scopeDepth
      {
        assert below[j] == slots[j];
      }
    }
  }

  /** For a table of declared identifiers, `DoublyDeclared` holds exactly when some
      local has the target's name and neither it nor any local above it belongs
      to a scope enclosing the current one. */
  lemma {:induction false} DoublyDeclaredMeans(slots: seq<Local>, target: Token, scopeDepth: nat)
    requires forall i :: 0 <= i < |slots| ==> Declared(slots[i]) && slots[i].name.value.tokenType.Identifier?
    requires target.tokenType.Identifier?
    ensures DoublyDeclared(slots, target, scopeDepth)
         == Returned(exists i :: InScopeMatch(slots, i, target.tokenType.name, scopeDepth))
  {
    if slots != [] {
      var n := |slots|;
      var top, below := slots[n - 1], slots[..n - 1];
      var id := target.tokenType.name;
      if top.depth.value < scopeDepth {
        forall i | 0 <= i < n
          ensures !InScopeMatch(slots, i, id, scopeDepth)
        {
          assert DepthOf(slots[n - 1]) < scopeDepth;
        }
      } else if top.name.value.tokenType.name == id {
        assert InScopeMatch(slots, n - 1, id, scopeDepth);
      } else {
        DoublyDeclaredMeans(below, target, scopeDepth);
        forall i
          ensures InScopeMatch(slots, i, id, scopeDepth) <==> InScopeMatch(below, i, id, scopeDepth)
        {
          if 0 <= i < n - 1 {
            InScopeMatchBelow(slots, i, id, scopeDepth);
          }
        }
      }
    }
  }

  /** The index of the innermost (topmost) slot whose token is the identifier `id`. */
  function Innermost(slots: seq<Local>, id: string): (r: Option<nat>)
    ensures r.Some? ==> r.value < |slots| && Names(slots[r.value], id) &&
                        forall j :: r.value < j < |slots| ==> !Names(slots[j], id)
    ensures r.None? ==> forall j :: 0 <= j < |slots| ==> !Names(slots[j], id)
  {
    if slots == [] then None
    else if Names(slots[|slots| - 1], id) then Some(|slots| - 1)
    else Innermost(slots[..|slots| - 1], id)
  }

  /** What `resolve_local` answers for `id`: `(true, None)` when no slot names it,
      `(false, None)` when the innermost one has no depth, else `(true, Some(index))`. */
  function Resolution(slots: seq<Local>, id: string): (r: (bool, Option<nat>)) {
    match Innermost(slots, id)
    case None => (true, None)
    case Some(i) => if slots[i].depth.None? then (false, None) else (true, Some(i))
  }

  /** Every slot the table declares has a depth, so the `(false, None)` answer of
      `resolve_local` never arises from a table built by `add_local`. */
  lemma ResolutionOfDeclared(slots: seq<Local>, id: string)
    requires forall i :: 0 <= i < |slots| ==> Declared(slots[i])
    ensures Resolution(slots, id).0
  {
  }

  class Locals {
    const locals: array<Local>
    var count: nat

    /** The first `count` slots are declared. */
    ghost predicate Valid()
      reads this, locals
    {
      count <= locals.Length && forall i :: 0 <= i < count ==> Declared(locals[i])
    }

    /** `Locals::new`: `capacity` (the source's `LOCALS_COUNT`) default slots, none declared. */
    constructor (capacity: nat)
      ensures Valid() && fresh(locals) && locals.Length == capacity && count == 0
      ensures forall i :: 0 <= i < capacity ==> locals[i] == Local(None, None)
    {
      locals := new Local[capacity](_ => Local(None, None));
      count := 0;
    }

    /** `size`: the number of declared locals. */
    method Size() returns (n: nat)
      requires Valid()
      ensures n == count && n <= locals.Length
    {
      n := count;
    }

    /** `initialize_variable`: sets the depth of the last declared local. On an empty
        table `count - 1` overflows and the call panics. */
    method InitializeVariable(scopeDepth: nat) returns (r: Exec<()>)
      requires Valid()
      modifies locals
      ensures Valid()
      ensures count == 0 ==> r == Aborted(Panic("attempt to subtract with overflow")) && unchanged(locals)
      ensures count > 0 ==>
                r == Returned(()) &&
                locals[..] == old(locals[..])[count - 1 := old(locals[count - 1]).(depth := Some(scopeDepth))]
    {
      if count == 0 {
        r := Aborted(Panic("attempt to subtract with overflow"));
        return;
      }
      locals[count - 1] := locals[count - 1].(depth := Some(scopeDepth));
      r := Returned(());
    }

    /** `add_local`: declares `token` at `depth` in the next free slot. A full table
        panics on the index. */
    method AddLocal(token: Token, depth: nat) returns (r: Exec<()>)
      requires Valid()
      modifies this, locals
      ensures Valid()
      ensures old(count) == locals.Length ==>
                r == Aborted(Panic("index out of bounds")) && unchanged(this) && unchanged(locals)
      ensures old(count) < locals.Length ==>
                r == Returned(()) && count == old(count) + 1 &&
                locals[..] == old(locals[..])[old(count) := NewLocal(token, depth)]
    {
      if count == locals.Length {
        r := Aborted(Panic("index out of bounds"));
        return;
      }
      locals[count] := NewLocal(token, depth);
      count := count + 1;
      r := Returned(());
    }

    /** `remove_locals`: counts the declared locals deeper than `scopeDepth`, lowers
        `count` by that number, and returns it; the slots are left as they were. */
    method RemoveLocals(scopeDepth: nat) returns (removed: nat)
      requires Valid()
      modifies this
      ensures Valid()
      ensures removed == CountDeeper(locals[..old(count)], scopeDepth)
      ensures count == old(count) - removed
      ensures WellNested(locals[..old(count)]) ==>
                (forall i :: 0 <= i < count ==> locals[i].depth.value <= scopeDepth) &&
                (forall i :: count <= i < old(count) ==> locals[i].depth.value > scopeDepth)
    {
      var idx := count;
      ghost var n := count;
      removed := 0;
      while idx > 0
        invariant 0 <= idx <= n && n == old(count) && n <= locals.Length
        invariant removed == CountDeeper(locals[idx..n], scopeDepth)
        invariant count + removed == n
      {
        idx := idx - 1;
        assert locals[idx..n][1..] == locals[idx + 1..n];
        if locals[idx].depth.Some? && locals[idx].depth.value > scopeDepth {
          removed := removed + 1;
          count := count - 1;
        }
      }
      assert locals[0..n] == locals[..n];
      if WellNested(locals[..n]) {
        NestedDeeperIsSuffix(locals[..n], scopeDepth);
      }
    }

    /** `local_is_doubly_declared`: whether `lookingFor` is already declared in the
        current scope, scanning from the top. */
    method LocalIsDoublyDeclared(lookingFor: Token, scopeDepth: nat) returns (r: Exec<bool>)
      requires Valid()
      ensures r == DoublyDeclared(locals[..count], lookingFor, scopeDepth)
    {
      var idx := count;
      while idx > 0
        invariant 0 <= idx <= count <= locals.Length
        invariant DoublyDeclared(locals[..idx], lookingFor, scopeDepth)
               == DoublyDeclared(locals[..count], lookingFor, scopeDepth)
      {
        idx := idx - 1;
        assert locals[..idx + 1][..idx] == locals[..idx];
        var local := locals[idx];
        if local.depth.Some? && local.depth.value < scopeDepth {
          return Returned(false);
        }
        if local.name.Some? {
          if !local.name.value.tokenType.Identifier? {
            return Aborted(Panic("Local string not an identifier"));
          }
          if !lookingFor.tokenType.Identifier? {
            return Aborted(Panic("Looking for string not an identifier!"));
          }
          if local.name.value.tokenType.name == lookingFor.tokenType.name {
            return Returned(true);
          }
        }
      }
      return Returned(false);
    }

    /** `resolve_local`: the index of the innermost local named `localId`. */
    method ResolveLocal(localId: string) returns (found: bool, index: Option<nat>)
      requires Valid()
      ensures (found, index) == Resolution(locals[..count], localId)
      ensures found
      ensures index.Some? ==> index.value < count && Names(locals[index.value], localId) &&
                              forall j :: index.value < j < count ==> !Names(locals[j], localId)
      ensures index.None? ==> forall j :: 0 <= j < count ==> !Names(locals[j], localId)
    {
      var idx := count;
      while idx > 0
        invariant 0 <= idx <= count <= locals.Length
        invariant forall j :: idx <= j < count ==> !Names(locals[j], localId)
      {
        idx := idx - 1;
        var local := locals[idx];
        if local.name.Some? && local.name.value.tokenType.Identifier? &&
           local.name.value.tokenType.name == localId {
          assert Innermost(locals[..count], localId) == Some(idx);
          if local.depth.None? {
            return false, None;
          }
          return true, Some(idx);
        }
      }
      assert Innermost(locals[..count], localId) == None;
      return true, None;
    }
  }
}
