/**
 * `class Scope` of mjs.h: one flat map from variable name to value
 * reference.  `set` goes through `std::map::insert`, which leaves an
 * existing binding in place; `get` on an unbound name is fatal.
 */
module Scopes {
  import opened Values

  /** The map `std::map::insert(name, value)` leaves behind. */
  function Inserted(m: map<string, Ptr>, name: string, value: Ptr): (r: map<string, Ptr>)
  {
    if name in m then m else m[name := value]
  }

  /** `get` as a function of the map: the bound reference, or the undefined-variable error. */
  function Lookup(m: map<string, Ptr>, name: string): (r: Result<Ptr>)
    ensures r.Ok? <==> name in m
    ensures r.Err? ==> r.error == UndefinedVariable(name)
  {
    if name in m then Ok(m[name]) else Err(UndefinedVariable(name))
  }

  /** `set` on an unbound name makes `get` return the new value and changes no other binding. */
  lemma InsertUnbound(m: map<string, Ptr>, name: string, value: Ptr)
    requires name !in m
    ensures Lookup(Inserted(m, name, value), name) == Ok(value)
    ensures forall other :: other != name ==> Lookup(Inserted(m, name, value), other) == Lookup(m, other)
    ensures Inserted(m, name, value).Keys == m.Keys + {name}
  {
  }

  /** `set` on a bound name keeps the old binding: `var x = 1; var x = 2;` leaves x bound to the first value. */
  lemma InsertBound(m: map<string, Ptr>, name: string, value: Ptr)
    requires name in m
    ensures Inserted(m, name, value) == m
    ensures Lookup(Inserted(m, name, value), name) == Ok(m[name])
  {
  }

  /** Inserting twice under one name is the same as inserting the first value once. */
  lemma InsertFirstWins(m: map<string, Ptr>, name: string, first: Ptr, second: Ptr)
    ensures Inserted(Inserted(m, name, first), name, second) == Inserted(m, name, first)
    ensures Lookup(Inserted(Inserted(m, name, first), name, second), name) == Lookup(Inserted(m, name, first), name)
  {
  }

  class Scope {
    /** `map<string, JsValue*> values` (the unused `parent` link is not modelled) */
    var values: map<string, Ptr>

    /** The global scope starts empty. */
    constructor ()
      ensures values == map[]
    {
      values := map[];
    }

    /** `Scope::set`: insert the binding unless the name is already bound. */
    method Set(name: string, value: Ptr)
      modifies this
      ensures values == Inserted(old(values), name, value)
      ensures name in values && (name !in old(values) ==> values[name] == value)
      ensures forall other :: other != name ==> Lookup(values, other) == Lookup(old(values), other)
    {
      if name !in values {
        values := values[name := value];
      }
    }

    /** `Scope::get`: the bound reference, or the fatal undefined-variable outcome. */
    function Get(name: string): (r: Result<Ptr>)
      reads this
      ensures r.Ok? <==> name in values
      ensures r.Ok? ==> r.value == values[name]
      ensures r.Err? ==> r.error == UndefinedVariable(name)
    {
      Lookup(values, name)
    }
  }
}
