/**
 * The double map: the spatial index between existers and the cells they
 * occupy, kept as two maps that the operations update side by side.
 *
 * Existers are keys by identity (`E` is instantiated with the Peep class,
 * whose equality is object identity, as with Go's pointer keys); locations
 * are keys by value.
 */
module DoubleMap {
  import opened Outcomes
  import opened Locations

  /** The abstract value of a double map: its two maps. */
  datatype Bindings<E(==)> = Bindings(byExister: map<E, Location>, byLocation: map<Location, E>)

  /** The two maps are mutual inverses. */
  ghost predicate Inverse<E>(b: Bindings<E>)
  {
    && (forall e :: e in b.byExister ==>
          b.byExister[e] in b.byLocation && b.byLocation[b.byExister[e]] == e)
    && (forall l :: l in b.byLocation ==>
          b.byLocation[l] in b.byExister && b.byExister[b.byLocation[l]] == l)
  }

  /** What `Set` does: bind `e` to `l` and `l` to `e`, overwriting older entries. */
  function Assign<E(==)>(b: Bindings<E>, e: E, l: Location): Bindings<E>
  {
    Bindings(b.byExister[e := l], b.byLocation[l := e])
  }

  /**
   * What `DelByExister` does: drop `e`, and drop the location `e` was bound
   * to, whoever that location names. Unbound `e`: nothing happens.
   */
  function RemoveExister<E(==)>(b: Bindings<E>, e: E): Bindings<E>
  {
    if e in b.byExister then
      Bindings(b.byExister - {e}, b.byLocation - {b.byExister[e]})
    else b
  }

  /**
   * What `DelByLocation` does: drop `l`, and drop the exister bound at `l`,
   * wherever that exister points. Unbound `l`: nothing happens.
   */
  function RemoveLocation<E(==)>(b: Bindings<E>, l: Location): Bindings<E>
  {
    if l in b.byLocation then
      Bindings(b.byExister - {b.byLocation[l]}, b.byLocation - {l})
    else b
  }

  // ---------------------------------------------------------------------
  // Properties of the index operations

  /** After `Set(e, l)` both lookups find the pair. */
  lemma AssignBinds<E>(b: Bindings<E>, e: E, l: Location)
    ensures var b' := Assign(b, e, l);
      e in b'.byExister && b'.byExister[e] == l && l in b'.byLocation && b'.byLocation[l] == e
  {
  }

  /** `Set` touches only the named pair: every other key keeps its entry. */
  lemma AssignFrame<E>(b: Bindings<E>, e: E, l: Location, e': E, l': Location)
    requires e' != e && l' != l
    ensures var b' := Assign(b, e, l);
      && (e' in b'.byExister <==> e' in b.byExister)
      && (e' in b.byExister ==> b'.byExister[e'] == b.byExister[e'])
      && (l' in b'.byLocation <==> l' in b.byLocation)
      && (l' in b.byLocation ==> b'.byLocation[l'] == b.byLocation[l'])
  {
  }

  /** Binding a fresh exister to a free location keeps the maps mutual inverses. */
  lemma AssignKeepsInverse<E>(b: Bindings<E>, e: E, l: Location)
    requires Inverse(b)
    requires e !in b.byExister && l !in b.byLocation
    ensures Inverse(Assign(b, e, l))
  {
    var b' := Assign(b, e, l);
    forall e' | e' in b'.byExister
      ensures b'.byExister[e'] in b'.byLocation && b'.byLocation[b'.byExister[e']] == e'
    {
      if e' != e {
        assert b.byExister[e'] != l;
      }
    }
    forall l' | l' in b'.byLocation
      ensures b'.byLocation[l'] in b'.byExister && b'.byExister[b'.byLocation[l']] == l'
    {
      if l' != l {
        assert b.byLocation[l'] != e;
      }
    }
  }

  /**
   * Without its precondition `Set` can break the inverse: two existers set
   * at one location leave the first exister pointing at a cell that no
   * longer names it.
   */
  lemma AssignOverBoundLocationBreaksInverse<E>(b: Bindings<E>, e1: E, e2: E, l: Location)
    requires e1 != e2
    ensures !Inverse(Assign(Assign(b, e1, l), e2, l))
  {
    var b' := Assign(Assign(b, e1, l), e2, l);
    assert e1 in b'.byExister && b'.byExister[e1] == l;
    assert b'.byLocation[l] == e2;
  }

  /** `DelByExister(e)` unbinds `e` and the location it was bound to. */
  lemma RemoveExisterUnbinds<E>(b: Bindings<E>, e: E)
    ensures var b' := RemoveExister(b, e);
      && e !in b'.byExister
      && (e in b.byExister ==> b.byExister[e] !in b'.byLocation)
      && (e !in b.byExister ==> b' == b)
  {
  }

  /** `DelByLocation(l)` unbinds `l` and the exister that was at it. */
  lemma RemoveLocationUnbinds<E>(b: Bindings<E>, l: Location)
    ensures var b' := RemoveLocation(b, l);
      && l !in b'.byLocation
      && (l in b.byLocation ==> b.byLocation[l] !in b'.byExister)
      && (l !in b.byLocation ==> b' == b)
  {
  }

  /** Deletes never break the inverse. */
  lemma RemoveExisterKeepsInverse<E>(b: Bindings<E>, e: E)
    requires Inverse(b)
    ensures Inverse(RemoveExister(b, e))
  {
    if e in b.byExister {
      var l := b.byExister[e];
      var b' := RemoveExister(b, e);
      forall e' | e' in b'.byExister
        ensures b'.byExister[e'] in b'.byLocation && b'.byLocation[b'.byExister[e']] == e'
      {
        assert b.byExister[e'] != l;
      }
      forall l' | l' in b'.byLocation
        ensures b'.byLocation[l'] in b'.byExister && b'.byExister[b'.byLocation[l']] == l'
      {
        assert b.byLocation[l'] != e;
      }
    }
  }

  lemma RemoveLocationKeepsInverse<E>(b: Bindings<E>, l: Location)
    requires Inverse(b)
    ensures Inverse(RemoveLocation(b, l))
  {
    if l in b.byLocation {
      var e := b.byLocation[l];
      var b' := RemoveLocation(b, l);
      forall e' | e' in b'.byExister
        ensures b'.byExister[e'] in b'.byLocation && b'.byLocation[b'.byExister[e']] == e'
      {
        assert b.byExister[e'] != l;
      }
      forall l' | l' in b'.byLocation
        ensures b'.byLocation[l'] in b'.byExister && b'.byExister[b'.byLocation[l']] == l'
      {
        assert b.byLocation[l'] != e;
      }
    }
  }

  /** Deletes touch only the named pair. */
  lemma RemoveExisterFrame<E>(b: Bindings<E>, e: E, e': E, l': Location)
    requires e' != e && (e in b.byExister ==> l' != b.byExister[e])
    ensures var b' := RemoveExister(b, e);
      && (e' in b'.byExister <==> e' in b.byExister)
      && (e' in b.byExister ==> b'.byExister[e'] == b.byExister[e'])
      && (l' in b'.byLocation <==> l' in b.byLocation)
      && (l' in b.byLocation ==> b'.byLocation[l'] == b.byLocation[l'])
  {
  }

  lemma RemoveLocationFrame<E>(b: Bindings<E>, l: Location, e': E, l': Location)
    requires l' != l && (l in b.byLocation ==> e' != b.byLocation[l])
    ensures var b' := RemoveLocation(b, l);
      && (e' in b'.byExister <==> e' in b.byExister)
      && (e' in b.byExister ==> b'.byExister[e'] == b.byExister[e'])
      && (l' in b'.byLocation <==> l' in b.byLocation)
      && (l' in b.byLocation ==> b'.byLocation[l'] == b.byLocation[l'])
  {
  }

  // ---------------------------------------------------------------------
  // The mutable double map

  class Dmap<E(==)> {
    var byExister: map<E, Location>
    var byLocation: map<Location, E>

    /** The abstract value of this map. */
    function Model(): Bindings<E>
      reads this
    {
      Bindings(byExister, byLocation)
    }

    /** An empty double map. */
    constructor ()
      ensures Model() == Bindings(map[], map[])
    {
      byExister := map[];
      byLocation := map[];
    }

    /** The location bound to `e`, or none. */
    function GetByExister(e: E): (r: Option<Location>)
      reads this
      ensures r.Some? <==> e in byExister
      ensures r.Some? && Inverse(Model()) ==> GetByLocation(r.value) == Some(e)
    {
      if e in byExister then Some(byExister[e]) else None
    }

    /** The exister bound at `l`, or none. */
    function GetByLocation(l: Location): (r: Option<E>)
      reads this
      ensures r.Some? <==> l in byLocation
      ensures r.Some? ==> r.value in byLocation.Values
    {
      if l in byLocation then Some(byLocation[l]) else None
    }

    /** Binds `e` to `l` in both directions. */
    method Set(e: E, l: Location)
      modifies this
      ensures Model() == Assign(old(Model()), e, l)
      ensures GetByExister(e) == Some(l) && GetByLocation(l) == Some(e)
      ensures old(Inverse(Model())) && old(e !in byExister && l !in byLocation) ==> Inverse(Model())
    {
      byExister := byExister[e := l];
      byLocation := byLocation[l := e];
      AssignBinds(old(Model()), e, l);
      if old(Inverse(Model())) && old(e !in byExister && l !in byLocation) {
        AssignKeepsInverse(old(Model()), e, l);
      }
    }

    /** Removes `e` and the location it is bound to. */
    method DelByExister(e: E)
      modifies this
      ensures Model() == RemoveExister(old(Model()), e)
      ensures GetByExister(e) == None
      ensures old(e in byExister) ==> GetByLocation(old(byExister[e])) == None
      ensures old(Inverse(Model())) ==> Inverse(Model())
    {
      if e in byExister {
        var l := byExister[e];
        byExister := byExister - {e};
        byLocation := byLocation - {l};
      }
      if old(Inverse(Model())) {
        RemoveExisterKeepsInverse(old(Model()), e);
      }
    }

    /** Removes `l` and the exister bound at it. */
    method DelByLocation(l: Location)
      modifies this
      ensures Model() == RemoveLocation(old(Model()), l)
      ensures GetByLocation(l) == None
      ensures old(l in byLocation) ==> GetByExister(old(byLocation[l])) == None
      ensures old(Inverse(Model())) ==> Inverse(Model())
    {
      if l in byLocation {
        var e := byLocation[l];
        byExister := byExister - {e};
        byLocation := byLocation - {l};
      }
      if old(Inverse(Model())) {
        RemoveLocationKeepsInverse(old(Model()), l);
      }
    }

    /**
     * Every bound location, each once, in an unspecified order (Go's map
     * iteration order is unspecified too).
     */
    method AllNonEmptyLocations() returns (keys: seq<Location>)
      ensures forall l :: l in keys <==> l in byLocation
      ensures NoDuplicates(keys)
      ensures |keys| == |byLocation|
    {
      keys := [];
      var pending := byLocation.Keys;
      while pending != {}
        invariant pending <= byLocation.Keys
        invariant forall l :: l in keys <==> l in byLocation && l !in pending
        invariant NoDuplicates(keys)
        invariant |keys| + |pending| == |byLocation|
        decreases |pending|
      {
        var k :| k in pending;
        keys := keys + [k];
        pending := pending - {k};
      }
    }
  }

  /** A new map has no occupied cell; after one `Set` exactly that cell is listed. */
  method AllNonEmptyLocationsExample<E(==)>(e: E, l: Location) returns (before: seq<Location>, after: seq<Location>)
    ensures before == [] && after == [l]
  {
    var d := new Dmap<E>();
    before := d.AllNonEmptyLocations();
    d.Set(e, l);
    after := d.AllNonEmptyLocations();
    assert l in after;
    assert |after| == 1;
  }
}
