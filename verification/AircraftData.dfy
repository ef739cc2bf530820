/**
 The aircraft store as the program has it (src/data/AircraftData.cpp): a vector of records and
 a hash map from ids to positions, both changed in place. `Valid` says that the map is exactly
 the positions of the ids, and every method is proved to do to the vector what
 `AircraftStore` says.
 */
module AircraftDatas {
  import opened Options
  import opened Aircrafts
  import opened AircraftStore

  type Index = map<string, nat>

  /** The ids of the records are the keys of the index, and no id occurs twice. */
  ghost predicate SameIds(c: Store, ix: Index)
  {
    && DistinctIds(c)
    && (forall j :: 0 <= j < |c| ==> c[j].id in ix)
    && (forall id :: id in ix ==> exists j :: 0 <= j < |c| && c[j].id == id)
  }

  /** The first `n` records are where the index says. */
  ghost predicate Indexed(c: Store, ix: Index, n: nat)
  {
    forall j :: 0 <= j < n && j < |c| ==> c[j].id in ix && ix[c[j].id] == j
  }

  // ---------- the index during the loop ----------

  /** Replacing a record by one with the same id. */
  lemma ReplaceKeeps(c: Store, ix: Index, i: nat, a: Aircraft)
    requires SameIds(c, ix) && i < |c| && a.id == c[i].id
    ensures SameIds(c[i := a], ix)
    ensures forall n: nat :: Indexed(c, ix, n) ==> Indexed(c[i := a], ix, n)
  {
    var c' := c[i := a];
    assert forall j :: 0 <= j < |c| ==> c'[j].id == c[j].id;
    forall id | id in ix ensures exists j :: 0 <= j < |c'| && c'[j].id == id {
      var j :| 0 <= j < |c| && c[j].id == id;
      assert c'[j].id == id;
    }
  }

  /** Vector erase at a position. */
  function Erase(c: Store, i: nat): Store
    requires i < |c|
  {
    c[..i] + c[i + 1..]
  }

  lemma EraseReplaced(c: Store, i: nat, a: Aircraft)
    requires i < |c|
    ensures Erase(c[i := a], i) == Erase(c, i)
  {
    assert c[i := a][..i] == c[..i] && c[i := a][i + 1..] == c[i + 1..];
  }

  lemma ReplaceTwice(c: Store, i: nat, a: Aircraft, b: Aircraft)
    requires i < |c|
    ensures c[i := a][i := b] == c[i := b]
  {
  }

  lemma ErasedAt(c: Store, i: nat, j: nat)
    requires i < |c| && j < |c| - 1
    ensures Erase(c, i)[j] == c[if j < i then j else j + 1]
  {
  }

  lemma EraseKeepsDistinct(c: Store, i: nat)
    requires DistinctIds(c) && i < |c|
    ensures DistinctIds(Erase(c, i))
    ensures forall j :: 0 <= j < |c| - 1 ==> Erase(c, i)[j].id != c[i].id
  {
    forall j | 0 <= j < |c| - 1 ensures Erase(c, i)[j].id != c[i].id {
      ErasedAt(c, i, j);
    }
    forall j, l | 0 <= j < l < |c| - 1 ensures Erase(c, i)[j].id != Erase(c, i)[l].id {
      ErasedAt(c, i, j);
      ErasedAt(c, i, l);
    }
  }

  /** Erasing a record from both; those before it stay where the index says. */
  lemma EraseKeeps(c: Store, ix: Index, i: nat)
    requires SameIds(c, ix) && i < |c| && Indexed(c, ix, i)
    ensures SameIds(Erase(c, i), ix - {c[i].id}) && Indexed(Erase(c, i), ix - {c[i].id}, i)
  {
    var c', ix' := Erase(c, i), ix - {c[i].id};
    EraseKeepsDistinct(c, i);
    forall j | 0 <= j < |c'| ensures c'[j].id in ix' {
      ErasedAt(c, i, j);
    }
    forall id | id in ix' ensures exists j :: 0 <= j < |c'| && c'[j].id == id {
      var j :| 0 <= j < |c| && c[j].id == id;
      ErasedAt(c, i, if j < i then j else j - 1);
    }
  }

  /** Correcting the position of one record. */
  lemma ReindexKeeps(c: Store, ix: Index, i: nat)
    requires SameIds(c, ix) && i < |c| && Indexed(c, ix, i)
    ensures SameIds(c, ix[c[i].id := i]) && Indexed(c, ix[c[i].id := i], i + 1)
  {
  }

  // ---------- the records during the loop ----------

  /** The loop has passed the first `k` records of `s` and stands at `it`. The record there is
      as it was, or was passed once already because its rendering threw. */
  ghost predicate Progress(s: Store, k: nat, c: Store, it: nat, r: Reference, throws: set<string>, render: Renderer)
  {
    && k <= |s| && it <= |c|
    && c[..it] == Round(s[..k], r, throws, render)
    && |c| - it == |s| - k
    && (forall j :: it < j < |c| ==> c[j] == s[j - it + k])
    && (it < |c| ==> c[it] == s[k] || (s[k].age == 0 && s[k].id in throws && c[it] == Tick(s[k])))
  }

  /** The record at `it` is finished as `a` and the loop moves on. */
  lemma PassKept(s: Store, k: nat, c: Store, it: nat, r: Reference, throws: set<string>, render: Renderer, a: Aircraft)
    requires Progress(s, k, c, it, r, throws, render) && it < |c|
    requires RoundOne(s[k], r, throws, render) == Some(a)
    ensures Progress(s, k + 1, c[it := a], it + 1, r, throws, render)
  {
    assert s[..k + 1][..k] == s[..k];
    assert c[it := a][..it + 1] == c[..it] + [a];
  }

  /** The record at `it` is erased and the loop stands at the next. */
  lemma PassErased(s: Store, k: nat, c: Store, it: nat, r: Reference, throws: set<string>, render: Renderer)
    requires Progress(s, k, c, it, r, throws, render) && it < |c|
    requires RoundOne(s[k], r, throws, render) == None
    ensures Progress(s, k + 1, c[..it] + c[it + 1..], it, r, throws, render)
  {
    assert s[..k + 1][..k] == s[..k];
    assert (c[..it] + c[it + 1..])[..it] == c[..it];
  }

  // ---------- one pass of the loop ----------

  /** What holds whenever the loop stands at `it`: once something was erased, only the records
      up to and including that one are known to be indexed correctly. */
  ghost predicate LoopInv(s: Store, k: nat, c: Store, ix: Index, it: nat, del: bool,
                          r: Reference, throws: set<string>, render: Renderer)
  {
    && Progress(s, k, c, it, r, throws, render)
    && SameIds(c, ix)
    && Indexed(c, ix, if del then it + 1 else |c|)
  }

  /** `m_index.at(id) = pos`, if something was erased and there is a record at `pos`. */
  function Reindex(c: Store, ix: Index, pos: nat, del: bool): Index
  {
    if del && pos < |c| then ix[c[pos].id := pos] else ix
  }

  /** What one more tick makes of the record at `it` decides what the round does with it. */
  lemma PassResult(s: Store, k: nat, c: Store, it: nat, r: Reference, throws: set<string>, render: Renderer)
    requires Progress(s, k, c, it, r, throws, render) && it < |c|
    ensures var b, o := Tick(c[it]), RoundOne(s[k], r, throws, render);
            if b.age >= AC_DELETE_THRESHOLD then o == None
            else if b.age != 1 then o == Some(b)
            else if b.id in throws then c[it].age == 0
            else o == Some(b.(serialized := render(b.id, b.info, r)))
  {
  }

  lemma ErasePass(s: Store, k: nat, c: Store, ix: Index, it: nat, del: bool,
                  r: Reference, throws: set<string>, render: Renderer)
    requires LoopInv(s, k, c, ix, it, del, r, throws, render) && it < |c|
    requires RoundOne(s[k], r, throws, render) == None
    ensures var c', ix' := Erase(c, it), ix - {c[it].id};
            && (it < |c'| ==> c'[it].id in ix')
            && LoopInv(s, k + 1, c', Reindex(c', ix', it, true), it, true, r, throws, render)
  {
    var c', ix' := Erase(c, it), ix - {c[it].id};
    PassErased(s, k, c, it, r, throws, render);
    EraseKeeps(c, ix, it);
    if it < |c'| {
      ReindexKeeps(c', ix', it);
    }
  }

  lemma KeepPass(s: Store, k: nat, c: Store, ix: Index, it: nat, del: bool,
                 r: Reference, throws: set<string>, render: Renderer, a: Aircraft)
    requires LoopInv(s, k, c, ix, it, del, r, throws, render) && it < |c|
    requires RoundOne(s[k], r, throws, render) == Some(a)
    ensures var c' := c[it := a];
            && (it + 1 < |c'| ==> c'[it + 1].id in ix)
            && LoopInv(s, k + 1, c', Reindex(c', ix, it + 1, del), it + 1, del, r, throws, render)
  {
    var c' := c[it := a];
    PassKept(s, k, c, it, r, throws, render, a);
    ReplaceKeeps(c, ix, it, a);
    if del && it + 1 < |c'| {
      ReindexKeeps(c', ix, it + 1);
    }
  }

  lemma ThrowPass(s: Store, k: nat, c: Store, ix: Index, it: nat, del: bool,
                  r: Reference, throws: set<string>, render: Renderer)
    requires LoopInv(s, k, c, ix, it, del, r, throws, render) && it < |c|
    requires c[it].age == 0 && c[it].id in throws
    ensures LoopInv(s, k, c[it := Tick(c[it])], ix, it, del, r, throws, render)
  {
    ReplaceKeeps(c, ix, it, Tick(c[it]));
    assert c[it := Tick(c[it])][..it] == c[..it];
  }

  // ---------- the object ----------

  class AircraftData {
    const render: Renderer
    var container: Store
    var index: Index
    var reference: Reference

    ghost predicate Valid()
      reads this
    {
      SameIds(container, index) && Indexed(container, index, |container|)
    }

    constructor (render: Renderer, reference: Reference)
      ensures Valid() && container == [] && this.render == render
    {
      this.render := render;
      this.reference := reference;
      container, index := [], map[];
    }

    method GetSerialized(dest: string) returns (r: string)
      ensures r == dest + Serialized(container)
    {
      r := dest;
      for i := 0 to |container|
        invariant r == dest + Serialized(container[..i])
      {
        assert container[..i + 1][..i] == container[..i];
        r := r + if container[i].age < OBJ_OUTDATED then container[i].serialized else "";
      }
      assert container[..|container|] == container;
    }

    method Update(a: Aircraft) returns (ok: bool)
      requires Valid()
      modifies this`container, this`index
      ensures Valid()
      ensures container == AircraftStore.Update(old(container), a)
      ensures ok <==> Accepts(old(container), a)
    {
      assert Find(container, a.id) < |container| <==> a.id in index;
      if a.id in index {
        var i := index[a.id];
        assert i == Find(container, a.id);
        ok := a.CanUpdate(container[i]);
        if ok {
          ReplaceKeeps(container, index, i, container[i].Assign(a));
          container := container[i := container[i].Assign(a)];
        }
      } else {
        Insert(a);
        ok := true;
      }
    }

    method Insert(a: Aircraft)
      requires Valid() && a.id !in index
      modifies this`container, this`index
      ensures Valid() && container == old(container) + [a]
    {
      ghost var c := container;
      index := index[a.id := |container|];
      container := container + [a];
      forall id | id in index ensures exists j :: 0 <= j < |container| && container[j].id == id {
        if id == a.id {
          assert container[|c|].id == id;
        } else {
          var j :| 0 <= j < |c| && c[j].id == id;
          assert container[j].id == id;
        }
      }
    }

    /** One pass of the loop over the record at `it`; rendering throws for the ids in `throws`.
        `s` and `k` say how far the round has come. */
    method Pass(it: nat, pos: nat, del: bool, r: Reference, throws: set<string>,
                ghost s: Store, ghost k: nat)
      returns (it': nat, pos': nat, del': bool, ghost k': nat)
      requires LoopInv(s, k, container, index, it, del, r, throws, render)
      requires it < |container| && pos == it
      modifies this`container, this`index
      ensures LoopInv(s, k', container, index, it', del', r, throws, render) && pos' == it'
      ensures k' == k + 1 || (k' == k && it' == it && old(container[it].age) == 0 && container[it].age > 0)
    {
      it', pos', del', k' := it, pos, del, k + 1;
      ghost var c, ix := container, index;
      PassResult(s, k, c, it, r, throws, render);
      var a := container[it].Older();
      if a.age == AC_NO_FLARM_THRESHOLD {
        a := a.SetTargetType(Transponder);
      }
      container := container[it := a];
      if a.age >= AC_DELETE_THRESHOLD {
        ErasePass(s, k, c, ix, it, del, r, throws, render);
        EraseReplaced(c, it, a);
        del' := true;
        index := index - {a.id};
        container := Erase(container, it);
      } else {
        if a.age == 1 {
          if a.id in throws {
            ThrowPass(s, k, c, ix, it, del, r, throws, render);
            k' := k;
            return;
          }
          ReplaceTwice(c, it, a, a.(serialized := render(a.id, a.info, r)));
          a := a.(serialized := render(a.id, a.info, r));
          container := container[it := a];
        }
        KeepPass(s, k, c, ix, it, del, r, throws, render, a);
        it', pos' := it + 1, pos + 1;
      }
      if del' && it' < |container| {
        // m_index.at does not throw
        assert container[it'].id in index;
        index := index[container[it'].id := pos'];
      }
    }

    /** One processing round. It ends whatever rendering throws: a record is passed over again
        only if its age was 0, and then it is not any more. */
    method ProcessAircrafts(r: Reference, throws: set<string>)
      requires Valid()
      modifies this
      ensures Valid() && reference == r
      ensures container == Round(old(container), r, throws, render)
    {
      ghost var s, k := container, 0;
      var it: nat, pos: nat, del := 0, 0, false;
      reference := r;
      while it < |container|
        invariant LoopInv(s, k, container, index, it, del, r, throws, render)
        invariant pos == it && reference == r
        decreases |s| - k, if it < |container| && container[it].age == 0 then 1 else 0
      {
        it, pos, del, k := Pass(it, pos, del, r, throws, s, k);
      }
      assert s[..k] == s && container[..it] == container;
    }
  }
}
