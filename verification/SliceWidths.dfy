/**
  Stores on a slice. Dependencies record the first offset of a stack access and not how many bytes it has
  (src/result.rs:832-877), so the slicer connects a store with a read only when both name one offset.
*/
module SliceWidths {
  import opened Graph
  import opened SliceSpec
  import opened SliceCarried

  /** The bytes [offset, offset + width) of the stack. */
  datatype Access = Access(offset: int, width: nat)

  predicate Meet(a: Access, b: Access) {
    a.offset < b.offset + b.width && b.offset < a.offset + a.width
  }

  /** A label that only writes the stack. */
  ghost predicate OnlyStores(q: Query, l: Label)
    requires q.target in q.graph
  {
    && l in q.deps && q.deps[l].regsWritten == {} && !q.isJmp(l) && !q.isAssume(l)
    && l != q.target && !Conservative(q)
  }

  /** The trail carries an offset that the label writes. */
  ghost predicate CarriesTo(q: Query, l: Label, path: seq<Label>, o: int)
    requires q.target in q.graph
  {
    Trail(q, l, path) && l in q.deps && o in q.deps[l].stackWritten && Carries(q, path, StackOffset(o))
  }

  /** A store is on the slice exactly when one of its recorded offsets is carried to it along some trail. */
  lemma StoreOnSlice(q: Query, l: Label)
    requires q.target in q.graph && OnlyStores(q, l)
    ensures OnSlice(q, l) <==> exists path, o :: CarriesTo(q, l, path, o)
  {
    hide Carries, Traced;
    if OnSlice(q, l) {
      var path :| Arrives(q, l, path) && Contributes(q, l, Traced(q, path));
      var r := Traced(q, path);
      assert q.deps[l].regsWritten * r.registers == {};
      SomeMember(q.deps[l].stackWritten * r.stackOffsets);
      var o: int :| o in q.deps[l].stackWritten * r.stackOffsets;
      CarriedPlace(q, path, StackOffset(o));
      assert CarriesTo(q, l, path, o);
    }
    if path, o :| CarriesTo(q, l, path, o) {
      CarriedPlace(q, path, StackOffset(o));
      var r := Traced(q, path);
      assert o in q.deps[l].stackWritten * r.stackOffsets;
      assert Arrives(q, l, path);
    }
  }

  // ------------------------------------------------------------------ byte ranges

  /** `access` says which bytes each label reads or writes; the dependencies hold its first offset, and no offset is seeded. */
  ghost predicate Recorded(q: Query, access: Label -> Access) {
    && q.seed.stackOffsets == {}
    && forall l :: l in q.deps ==> access(l).width > 0 && q.deps[l].stackRead <= {access(l).offset} && q.deps[l].stackWritten <= {access(l).offset}
  }

  /** The label at `j` of the trail acts and reads bytes that `l` stored and that nothing on the way has overwritten. */
  ghost predicate BytesRead(q: Query, access: Label -> Access, l: Label, path: seq<Label>, j: nat)
    requires q.target in q.graph
  {
    && Trail(q, l, path) && 0 < j < |path| && Acts(q, path, j)
    && ReadsPlace(q, path[j], StackOffset(access(path[j]).offset)) && Meet(access(l), access(path[j]))
    && forall i :: 0 < i < j && path[i] in q.deps && q.deps[path[i]].stackWritten != {} ==> !Meet(access(path[i]), access(path[j]))
  }

  /** The label at `j` acts and reads from the very offset the store at `l` recorded, not killed on the way. */
  ghost predicate OffsetRead(q: Query, access: Label -> Access, l: Label, path: seq<Label>, j: nat)
    requires q.target in q.graph
  {
    Trail(q, l, path) && ReadsAt(q, path, j, StackOffset(access(l).offset))
  }

  /** Bytes read through the offset they were stored at. */
  lemma SameOffsetIsRead(q: Query, access: Label -> Access, l: Label, path: seq<Label>, j: nat)
    requires q.target in q.graph && Recorded(q, access) && BytesRead(q, access, l, path, j)
    requires access(path[j]).offset == access(l).offset
    ensures OffsetRead(q, access, l, path, j)
  {
    hide Acts, Trail;
    forall i | 0 < i < j ensures !Kills(q, path[i], StackOffset(access(l).offset)) {
      assert path[i] in q.deps ==> access(path[i]).width > 0 && access(path[j]).width > 0;
      assert access(path[i]).offset == access(l).offset ==> path[i] !in q.deps || Meet(access(path[i]), access(path[j]));
    }
  }

  /**
    A store is on the slice exactly when some read on a trail names its offset. So a store whose bytes are
    read later is missed exactly when every such read, and every other one, names another offset: how
    far the accesses reach does not count.
  */
  lemma StoreOfBytes(q: Query, access: Label -> Access, l: Label)
    requires q.target in q.graph && Recorded(q, access) && OnlyStores(q, l) && q.deps[l].stackWritten == {access(l).offset}
    ensures OnSlice(q, l) <==> exists path, j: nat :: OffsetRead(q, access, l, path, j)
    ensures (exists path, j: nat :: BytesRead(q, access, l, path, j) && access(path[j]).offset == access(l).offset) ==> OnSlice(q, l)
  {
    hide OnSlice, ReadsAt, Walk;
    StoreOnSlice(q, l);
    if path, o :| CarriesTo(q, l, path, o) {
      var j: nat :| ReadsAt(q, path, j, StackOffset(o));
      assert OffsetRead(q, access, l, path, j);
    }
    if path, j: nat :| BytesRead(q, access, l, path, j) && access(path[j]).offset == access(l).offset {
      SameOffsetIsRead(q, access, l, path, j);
    }
    if path, j: nat :| OffsetRead(q, access, l, path, j) {
      assert CarriesTo(q, l, path, access(l).offset);
    }
  }

  // ------------------------------------------------------------------ a store, a load, a failure

  const STORE := Label("", 0, -1, "")
  const LOAD := Label("", 1, -1, "")
  const FAIL := Label("", 2, -1, "")

  /** r2 is stored at `store`, r1 is loaded from `load`, and an assertion on r1 fails. */
  function StoreLoad(store: Access, load: Access): Query {
    Query(
      map[ENTRY := Adjacent({}, {STORE}), STORE := Adjacent({ENTRY}, {LOAD}), LOAD := Adjacent({STORE}, {FAIL}),
          FAIL := Adjacent({LOAD}, {EXIT}), EXIT := Adjacent({FAIL}, {})],
      map[STORE := InstructionDeps({2, 10}, {}, {}, {}, {store.offset}), LOAD := InstructionDeps({10}, {1}, {}, {load.offset}, {}),
          FAIL := InstructionDeps({1}, {0}, {}, {}, {})],
      _ => false, _ => false, FAIL, RelevantState({1}, {}))
  }

  /** The only trail from the store. */
  lemma OnlyTrail(store: Access, load: Access, path: seq<Label>)
    ensures Trail(StoreLoad(store, load), STORE, path) <==> path == [STORE, LOAD, FAIL]
  {
    var q := StoreLoad(store, load);
    if Trail(q, STORE, path) {
      WalkStep(q, path, 0);
      WalkStep(q, path, 1);
      WalkStep(q, path, 2);
      WalkStep(q, path, 3);
    }
  }

  lemma StoreLoadTraced(store: Access, load: Access)
    ensures var q := StoreLoad(store, load);
      Traced(q, [STORE, LOAD, FAIL]) == RelevantState({10}, {load.offset}) && Traced(q, [LOAD, FAIL]) == RelevantState({1}, {})
  {
    var q := StoreLoad(store, load);
    assert [STORE, LOAD, FAIL][1..] == [LOAD, FAIL] && [LOAD, FAIL][1..] == [FAIL];
    assert Traced(q, [FAIL]) == q.seed;
    assert Flow(q, FAIL, q.seed) == RelevantState({1}, {});
    assert 1 in q.deps[LOAD].regsWritten * {1};
    assert Flow(q, LOAD, RelevantState({1}, {})) == RelevantState({10}, {load.offset});
  }

  /**
    For every two accesses: the load reads bytes of the store exactly when the ranges meet, and the store is
    on the slice exactly when the two offsets are equal.
  */
  lemma StoreLoadSlice(store: Access, load: Access)
    requires store.width > 0 && load.width > 0
    ensures var q := StoreLoad(store, load); var access := (l: Label) => if l == STORE then store else load;
      && WellFormed(q.graph) && Recorded(q, access)
      && ((exists path, j: nat :: BytesRead(q, access, STORE, path, j)) <==> Meet(store, load))
      && (OnSlice(q, STORE) <==> store.offset == load.offset)
  {
    hide OnSlice, StoreLoad, BytesRead, Trail;
    StoreLoadShape(store, load);
    StoreLoadBytes(store, load);
    var q := StoreLoad(store, load);
    StoreOnSlice(q, STORE);
    StoreLoadTraced(store, load);
    OnlyTrail(store, load, [STORE, LOAD, FAIL]);
    CarriedPlace(q, [STORE, LOAD, FAIL], StackOffset(store.offset));
    if path, o :| CarriesTo(q, STORE, path, o) {
      OnlyTrail(store, load, path);
      CarriedPlace(q, path, StackOffset(o));
    }
    assert store.offset == load.offset ==> CarriesTo(q, STORE, [STORE, LOAD, FAIL], store.offset);
  }

  lemma StoreLoadShape(store: Access, load: Access)
    requires store.width > 0 && load.width > 0
    ensures var q := StoreLoad(store, load);
      && WellFormed(q.graph) && q.target in q.graph && OnlyStores(q, STORE) && q.deps[STORE].stackWritten == {store.offset}
      && Recorded(q, (l: Label) => if l == STORE then store else load)
  {
  }

  lemma StoreLoadBytes(store: Access, load: Access)
    ensures var q := StoreLoad(store, load); var access := (l: Label) => if l == STORE then store else load;
      (exists path, j: nat :: BytesRead(q, access, STORE, path, j)) <==> Meet(store, load)
  {
    hide Acts, Trail, Traced;
    var q := StoreLoad(store, load);
    var access := (l: Label) => if l == STORE then store else load;
    var path := [STORE, LOAD, FAIL];
    OnlyTrail(store, load, path);
    StoreLoadActs(store, load);
    if Meet(store, load) {
      assert BytesRead(q, access, STORE, path, 1);
    }
    if p, j: nat :| BytesRead(q, access, STORE, p, j) {
      OnlyTrail(store, load, p);
    }
  }

  lemma StoreLoadActs(store: Access, load: Access)
    ensures Acts(StoreLoad(store, load), [STORE, LOAD, FAIL], 1)
  {
    hide Traced;
    StoreLoadTraced(store, load);
    assert [STORE, LOAD, FAIL][1..] == [LOAD, FAIL];
    assert 1 in StoreLoad(store, load).deps[LOAD].regsWritten * {1};
  }

  /** Eight bytes stored at -8, the upper four of them loaded from -4: the store decides the value, and the slice misses it. */
  lemma WideStoreIsMissed()
    ensures var store, load := Access(-8, 8), Access(-4, 4);
      var q := StoreLoad(store, load); var access := (l: Label) => if l == STORE then store else load;
      && WellFormed(q.graph) && Recorded(q, access)
      && (exists path, j: nat :: BytesRead(q, access, STORE, path, j)) && !OnSlice(q, STORE)
  {
    StoreLoadSlice(Access(-8, 8), Access(-4, 4));
  }
}
