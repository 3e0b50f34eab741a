/**
 * Identifiers and the name-to-id memo tables (`generateUUID` and
 * `NameToIdMapper` in src/index.ts).
 *
 * `randomUUID` is a source of fresh values; here it is one shared counter,
 * so an identifier is `Fresh(n)` for the n-th draw and no two draws agree.
 */
module Ids {

  datatype Id = Fresh(serial: nat)

  /** Every identifier in the table was drawn before `next`. */
  ghost predicate Below(ids: map<string, Id>, next: nat)
  {
    forall k :: k in ids ==> ids[k].serial < next
  }

  /** Different names hold different identifiers. */
  ghost predicate Injective(ids: map<string, Id>)
  {
    forall a, b :: a in ids && b in ids && a != b ==> ids[a] != ids[b]
  }

  /** No identifier is held by both tables. */
  ghost predicate Disjoint(ids: map<string, Id>, others: map<string, Id>)
  {
    forall a, b :: a in ids && b in others ==> ids[a] != others[b]
  }

  /** The fresh-identifier supply: each draw is new. */
  class IdSupply {
    var next: nat

    constructor ()
      ensures next == 0
    {
      next := 0;
    }

    method Generate() returns (id: Id)
      modifies this
      ensures id == Fresh(old(next)) && next == old(next) + 1
    {
      id := Fresh(next);
      next := next + 1;
    }
  }

  /** A table after a lookup, the supply's next serial, and the id found or made. */
  datatype Resolution = Resolution(ids: map<string, Id>, next: nat, id: Id)

  /**
   * getOrCreateId on values: a known name keeps its identifier and nothing
   * changes; an unknown name gets the next fresh identifier.
   */
  function Resolve(ids: map<string, Id>, next: nat, name: string): (r: Resolution)
    ensures name in r.ids && r.ids[name] == r.id
    ensures name in ids ==> r.ids == ids && r.next == next
    ensures name !in ids ==> r.id == Fresh(next) && r.next == next + 1
    ensures r.ids.Keys == ids.Keys + {name}
    ensures forall k :: k in ids ==> r.ids[k] == ids[k]
    ensures Below(ids, next) ==> Below(r.ids, r.next)
    ensures Below(ids, next) && Injective(ids) ==> Injective(r.ids)
  {
    if name in ids then Resolution(ids, next, ids[name])
    else Resolution(ids[name := Fresh(next)], next + 1, Fresh(next))
  }

  /** Asking twice for the same name gives the same identifier and changes nothing. */
  lemma ResolveTwice(ids: map<string, Id>, next: nat, name: string)
    ensures var r := Resolve(ids, next, name);
            Resolve(r.ids, r.next, name) == r
  {
  }

  /** Two different names asked of one table get different identifiers. */
  lemma ResolveDistinct(ids: map<string, Id>, next: nat, a: string, b: string)
    requires Below(ids, next) && Injective(ids) && a != b
    ensures var r := Resolve(ids, next, a);
            Resolve(r.ids, r.next, b).id != r.id
  {
  }

  /** The memo table of one entity kind. */
  class NameToIdMapper {
    var ids: map<string, Id>

    constructor ()
      ensures ids == map[]
    {
      ids := map[];
    }

    method GetOrCreateId(name: string, supply: IdSupply) returns (id: Id)
      modifies this, supply
      ensures Resolution(ids, supply.next, id) == Resolve(old(ids), old(supply.next), name)
      ensures name in old(ids) ==> id == old(ids)[name] && ids == old(ids) && supply.next == old(supply.next)
      ensures name !in old(ids) ==> id == Fresh(old(supply.next)) && ids == old(ids)[name := id]
    {
      if name !in ids {
        var drawn := supply.Generate();
        ids := ids[name := drawn];
      }
      id := ids[name];
    }
  }
}
