/**
 What the aircraft store means: an ordered list of records with distinct ids, and what an
 update and a processing round do to it. No index occurs here.
 */
module AircraftStore {
  import opened Options
  import opened Aircrafts

  const AC_DELETE_THRESHOLD := 120
  const AC_NO_FLARM_THRESHOLD := OBJ_OUTDATED

  /** The position and air pressure that a round refers to. */
  datatype Reference = Reference(position: Position, pressure: real)

  /** How a report is rendered relative to a reference; distance filter, geometry and sentence
      layout are in it. */
  type Renderer = (string, Info, Reference) -> string

  type Store = seq<Aircraft>

  predicate DistinctIds(s: Store)
  {
    forall i, j :: 0 <= i < j < |s| ==> s[i].id != s[j].id
  }

  /** The position of `id`, or the length of the list. */
  function Find(s: Store, id: string): (i: nat)
    ensures i <= |s|
    ensures i < |s| ==> s[i].id == id
    ensures forall j :: 0 <= j < i ==> s[j].id != id
  {
    if s == [] || s[0].id == id then 0 else 1 + Find(s[1..], id)
  }

  function Get(s: Store, id: string): Option<Aircraft>
  {
    if Find(s, id) < |s| then Some(s[Find(s, id)]) else None
  }

  // ---------- update ----------

  /** An unknown aircraft is always taken, a known one if the report may replace it. */
  predicate Accepts(s: Store, a: Aircraft)
  {
    Find(s, a.id) < |s| ==> a.CanUpdate(s[Find(s, a.id)])
  }

  function Update(s: Store, a: Aircraft): Store
  {
    var i := Find(s, a.id);
    if i == |s| then s + [a]
    else if a.CanUpdate(s[i]) then s[i := s[i].Assign(a)]
    else s
  }

  // ---------- a processing round ----------

  /** One pass over one record: it gets older, and stops being a FLARM target in time. */
  function Tick(a: Aircraft): Aircraft
  {
    var b := a.Older();
    if b.age == AC_NO_FLARM_THRESHOLD then b.SetTargetType(Transponder) else b
  }

  /** A record after a round, if it is kept. A record that has just been updated is rendered;
      if rendering throws, the loop does not move on and passes over it once more. */
  function RoundOne(a: Aircraft, r: Reference, throws: set<string>, render: Renderer): Option<Aircraft>
  {
    var b := Tick(a);
    if b.age >= AC_DELETE_THRESHOLD then None
    else if b.age != 1 then Some(b)
    else if b.id in throws then Some(Tick(b))
    else Some(b.(serialized := render(b.id, b.info, r)))
  }

  function Kept(o: Option<Aircraft>): Store
  {
    if o.Some? then [o.value] else []
  }

  function Round(s: Store, r: Reference, throws: set<string>, render: Renderer): Store
  {
    if s == [] then []
    else Round(s[..|s| - 1], r, throws, render) + Kept(RoundOne(s[|s| - 1], r, throws, render))
  }

  // ---------- what is served ----------

  /** The texts of all records that are not outdated, in order. */
  function Serialized(s: Store): string
  {
    if s == [] then ""
    else Serialized(s[..|s| - 1]) +
         if s[|s| - 1].age < OBJ_OUTDATED then s[|s| - 1].serialized else ""
  }

  // ---------- distinct ids are kept ----------

  lemma UpdateKeepsDistinct(s: Store, a: Aircraft)
    requires DistinctIds(s)
    ensures DistinctIds(Update(s, a))
  {
  }

  /** Every record of a round comes from a record with the same id. */
  lemma {:induction false} RoundIds(s: Store, r: Reference, throws: set<string>, render: Renderer, j: nat)
    requires j < |Round(s, r, throws, render)|
    ensures exists i :: 0 <= i < |s| && s[i].id == Round(s, r, throws, render)[j].id
  {
    var p := s[..|s| - 1];
    if j < |Round(p, r, throws, render)| {
      RoundIds(p, r, throws, render, j);
    } else {
      assert s[|s| - 1].id == Round(s, r, throws, render)[j].id;
    }
  }

  lemma {:induction false} RoundKeepsDistinct(s: Store, r: Reference, throws: set<string>, render: Renderer)
    requires DistinctIds(s)
    ensures DistinctIds(Round(s, r, throws, render))
  {
    if s != [] {
      var p := s[..|s| - 1];
      RoundKeepsDistinct(p, r, throws, render);
      forall j | 0 <= j < |Round(p, r, throws, render)|
        ensures Round(p, r, throws, render)[j].id != s[|s| - 1].id
      {
        RoundIds(p, r, throws, render, j);
      }
    }
  }
}
