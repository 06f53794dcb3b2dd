/**
 The call store as the code changes it in place, and the visiting of its calls by a callback that
 may change it meanwhile (src/bm-call-store.c).
 */
module CallStoreObjects {
  import opened Maps
  import opened CallStore

  /** What a callback answers, after the edits it has made. */
  datatype Reply = Reply(edits: seq<Edit>, ok: bool)

  /** A callback knows all the pairs it has been passed, the last one being the current one. */
  type Callback = seq<Pair> -> Reply

  /** All edits made by the callback so far. */
  ghost function EditsOf(f: Callback, passed: seq<Pair>): seq<Edit> {
    if passed == [] then [] else EditsOf(f, passed[..|passed| - 1]) + f(passed).edits
  }

  /** The callback was passed distinct pairs, and none after it had answered FALSE. */
  ghost predicate Visited(f: Callback, passed: seq<Pair>, count: int) {
    && (forall i, j | 0 <= i < j < |passed| :: passed[i] != passed[j])
    && Continued(f, passed)
    && count == if passed == [] || f(passed).ok then |passed| else -1
  }

  /** Each time, the callback adds and removes ids only of the object it is visiting. */
  ghost predicate EditsOwn(f: Callback) {
    forall passed: seq<Pair>, e | passed != [] && e in f(passed).edits ::
      (e.Add? || e.Remove?) && e.pair.obj == passed[|passed| - 1].obj
  }

  /** An object and those of its ids that the callback was passed, in order. */
  datatype Visit = Visit(obj: ObjectId, ids: seq<CallId>)

  function PairsFor(o: ObjectId, ids: seq<CallId>): seq<Pair> {
    seq(|ids|, i requires 0 <= i < |ids| => Pair(o, ids[i]))
  }

  function PassedIn(visits: seq<Visit>): seq<Pair> {
    if visits == [] then []
    else PassedIn(visits[..|visits| - 1]) + PairsFor(visits[|visits| - 1].obj, visits[|visits| - 1].ids)
  }

  function ObjectsIn(visits: seq<Visit>): set<ObjectId> {
    set v | v in visits :: v.obj
  }

  /** The store after the callback's edits in some visits. */
  ghost function After(s: State, f: Callback, visits: seq<Visit>): State {
    RunFrom(s, EditsOf(f, PassedIn(visits)))
  }

  /**
   The last visit is to an object of the store that had not been visited: ids are passed that it
   had by then, each once, and all of them unless the callback answers FALSE.
   */
  ghost predicate LastVisit(s: State, f: Callback, visits: seq<Visit>)
    requires visits != []
  {
    var before, v, passed := visits[..|visits| - 1], visits[|visits| - 1], PassedIn(visits);
    && v.obj in s.outer && v.obj !in ObjectsIn(before)
    && (forall i, j | 0 <= i < j < |v.ids| :: v.ids[i] != v.ids[j])
    && (forall k | k in v.ids :: k in IdsOf(After(s, f, before), v.obj))
    && (passed == [] || f(passed).ok ==> forall k | k in IdsOf(After(s, f, before), v.obj) :: k in v.ids)
  }

  /** The callback answered TRUE up to the last pair. */
  ghost predicate Continued(f: Callback, passed: seq<Pair>) {
    forall n | 0 < n < |passed| :: f(passed[..n]).ok
  }

  /** Visits that the code may make one after another, for some order of its tables. */
  ghost predicate Walk(s: State, f: Callback, visits: seq<Visit>)
    decreases |visits|
  {
    && Continued(f, PassedIn(visits))
    && (visits != [] ==> Walk(s, f, visits[..|visits| - 1]) && LastVisit(s, f, visits))
  }

  /** What has been done so far: a walk, what was passed in it, and the count. */
  ghost predicate Underway(s: State, f: Callback, passed: seq<Pair>, count: int, visits: seq<Visit>) {
    Visited(f, passed, count) && Walk(s, f, visits) && passed == PassedIn(visits)
  }

  /** An object that is still to be visited after some walk. */
  ghost predicate Due(s: State, f: Callback, visits: seq<Visit>, o: ObjectId) {
    Walk(s, f, visits) && o in s.outer && o !in ObjectsIn(visits)
  }

  /** In no walk does the callback ever empty an object that is still to be visited. */
  ghost predicate Serves(s: State, f: Callback) {
    forall visits, o | Due(s, f, visits, o) :: NeverEmptied(Pairs(s), EditsOf(f, PassedIn(visits)), o)
  }

  /** In every walk, the code finds the table of an object still to be visited. */
  ghost predicate FindsTables(s: State, f: Callback) {
    forall visits, o | Due(s, f, visits, o) :: s.outer[o] in After(s, f, visits).tables
  }

  lemma {:induction false} DueTable(s: State, f: Callback, visits: seq<Visit>, o: ObjectId)
    requires Inv(s) && Due(s, f, visits, o)
    ensures NeverEmptied(Pairs(s), EditsOf(f, PassedIn(visits)), o) <==> s.outer[o] in After(s, f, visits).tables
    ensures s.outer[o] in After(s, f, visits).tables ==>
              IdsOf(After(s, f, visits), o) == After(s, f, visits).tables[s.outer[o]]
  {
    TableStaysIff(s, EditsOf(f, PassedIn(visits)), o);
  }

  /** Serving a callback is just finding the tables: the requirement is no more than the code needs. */
  lemma {:induction false} ServesIff(s: State, f: Callback)
    requires Inv(s)
    ensures Serves(s, f) <==> FindsTables(s, f)
  {
    if Serves(s, f) {
      forall visits, o | Due(s, f, visits, o) ensures s.outer[o] in After(s, f, visits).tables {
        DueTable(s, f, visits, o);
      }
    }
    if FindsTables(s, f) {
      forall visits, o | Due(s, f, visits, o) ensures NeverEmptied(Pairs(s), EditsOf(f, PassedIn(visits)), o) {
        DueTable(s, f, visits, o);
      }
    }
  }

  lemma {:induction false} PassedObjects(visits: seq<Visit>)
    ensures forall p | p in PassedIn(visits) :: p.obj in ObjectsIn(visits)
  {
    if visits != [] {
      var n := |visits| - 1;
      PassedObjects(visits[..n]);
      assert visits == visits[..n] + [visits[n]];
    }
  }

  lemma {:induction false} PassedSnoc(visits: seq<Visit>, v: Visit)
    ensures PassedIn(visits + [v]) == PassedIn(visits) + PairsFor(v.obj, v.ids)
    ensures ObjectsIn(visits + [v]) == ObjectsIn(visits) + {v.obj}
  {
    assert (visits + [v])[..|visits|] == visits;
  }

  /** Editing only the object visited is enough. */
  lemma {:induction false} OwnServes(s: State, f: Callback)
    requires Inv(s) && EditsOwn(f)
    ensures Serves(s, f)
  {
    forall visits, o | Due(s, f, visits, o)
      ensures NeverEmptied(Pairs(s), EditsOf(f, PassedIn(visits)), o)
    {
      OwnKeeps(s, f, visits, o);
      TableStaysIff(s, EditsOf(f, PassedIn(visits)), o);
    }
  }

  lemma {:induction false} OwnKeeps(s: State, f: Callback, visits: seq<Visit>, o: ObjectId)
    requires Inv(s) && EditsOwn(f) && o in s.outer && o !in ObjectsIn(visits)
    ensures Keeps(After(s, f, visits), o, s.outer[o]) && IdsOf(After(s, f, visits), o) == IdsOf(s, o)
  {
    PassedObjects(visits);
    EditsApart(f, PassedIn(visits), {o});
    RunApart(s, EditsOf(f, PassedIn(visits)), {o});
  }

  /** So is only adding. */
  lemma {:induction false} AddingServes(s: State, f: Callback)
    requires Inv(s) && forall passed: seq<Pair>, e | e in f(passed).edits :: e.Add?
    ensures Serves(s, f)
  {
    forall visits, o | Due(s, f, visits, o)
      ensures NeverEmptied(Pairs(s), EditsOf(f, PassedIn(visits)), o)
    {
      HasIdsOf(s, o);
      AllAdded(f, PassedIn(visits));
      AddingKeeps(Pairs(s), EditsOf(f, PassedIn(visits)), o);
    }
  }

  lemma {:induction false} AllAdded(f: Callback, passed: seq<Pair>)
    requires forall t: seq<Pair>, e | e in f(t).edits :: e.Add?
    ensures forall e | e in EditsOf(f, passed) :: e.Add?
  {
    if passed != [] {
      AllAdded(f, passed[..|passed| - 1]);
    }
  }

  lemma {:induction false} AddingKeeps(pairs: set<Pair>, edits: seq<Edit>, o: ObjectId)
    requires HasIds(pairs, o) && forall e | e in edits :: e.Add?
    ensures NeverEmptied(pairs, edits, o)
    ensures pairs <= Replayed(pairs, edits)
    decreases |edits|
  {
    if edits == [] {
      assert forall n | 0 <= n <= |edits| :: edits[..n] == [];
    } else {
      AddingKeeps(pairs, edits[..|edits| - 1], o);
      NeverEmptiedMore(pairs, edits, o);
      var p :| p in pairs && p.obj == o;
      assert p in Replayed(pairs, edits);
    }
  }

  /** A store with an id for each of two objects, and a callback that takes away the one of the second. */
  const TWO_OBJECTS := [Add(Pair(1, 1)), Add(Pair(2, 2))]

  const EMPTYING: Callback := (passed: seq<Pair>) => Reply([Remove(Pair(2, 2))], true)

  lemma {:induction false} TwoPairs(first: Edit, second: Edit)
    ensures Replayed({}, [first, second]) == Edited(Edited({}, first), second)
  {
    assert [first, second][..1] == [first];
    OneEdit({}, first);
  }

  lemma {:induction false} OneEdit(pairs: set<Pair>, e: Edit)
    ensures Replayed(pairs, [e]) == Edited(pairs, e)
  {
    assert [e][..0] == [];
  }

  lemma {:induction false} TwoObjects()
    ensures var s := RunFrom(EMPTY, TWO_OBJECTS);
            Inv(s) && Pairs(s) == {Pair(1, 1), Pair(2, 2)} && IdsOf(s, 1) == {1} && 1 in s.outer && 2 in s.outer
  {
    var s := RunFrom(EMPTY, TWO_OBJECTS);
    assert Pairs(EMPTY) == {};
    RunFaithful(EMPTY, TWO_OBJECTS);
    TwoPairs(Add(Pair(1, 1)), Add(Pair(2, 2)));
    TwoIds(s);
  }

  lemma {:induction false} TwoIds(s: State)
    requires Pairs(s) == {Pair(1, 1), Pair(2, 2)}
    ensures IdsOf(s, 1) == {1} && 1 in s.outer && 2 in s.outer
  {
    forall k ensures k in IdsOf(s, 1) <==> k == 1 {
      PairsOf(s, Pair(1, k));
    }
    PairsOf(s, Pair(2, 2));
  }

  lemma {:induction false} FirstPassed()
    ensures PassedIn([Visit(1, [1])]) == [Pair(1, 1)] && ObjectsIn([Visit(1, [1])]) == {1}
  {
    assert [] + [Visit(1, [1])] == [Visit(1, [1])];
    PassedSnoc([], Visit(1, [1]));
    assert PairsFor(1, [1]) == [Pair(1, 1)];
  }

  lemma {:induction false} FirstVisit(s: State)
    requires IdsOf(s, 1) == {1} && 1 in s.outer && 2 in s.outer
    ensures Due(s, EMPTYING, [Visit(1, [1])], 2)
  {
    var visits := [Visit(1, [1])];
    FirstPassed();
    assert visits[..0] == [];
    assert After(s, EMPTYING, []) == s;
    assert LastVisit(s, EMPTYING, visits);
  }

  /** That callback is not served. */
  lemma {:induction false} EmptyingNotServed()
    ensures Inv(RunFrom(EMPTY, TWO_OBJECTS)) && !Serves(RunFrom(EMPTY, TWO_OBJECTS), EMPTYING)
  {
    var s := RunFrom(EMPTY, TWO_OBJECTS);
    TwoObjects();
    FirstPassed();
    FirstVisit(s);
    FirstEdits(Pairs(s));
  }

  lemma {:induction false} FirstEdits(pairs: set<Pair>)
    requires pairs == {Pair(1, 1), Pair(2, 2)}
    ensures !NeverEmptied(pairs, EditsOf(EMPTYING, [Pair(1, 1)]), 2)
  {
    EditsMore(EMPTYING, [], Pair(1, 1));
    assert [] + [Pair(1, 1)] == [Pair(1, 1)];
    var edits := [Remove(Pair(2, 2))];
    assert EditsOf(EMPTYING, [Pair(1, 1)]) == edits;
    OneEdit(pairs, Remove(Pair(2, 2)));
    assert edits[..1] == edits && !HasIds(pairs - {Pair(2, 2)}, 2);
  }

  /** If the callback edits only the object it visits, what it is passed are the pairs at entry. */
  lemma {:induction false} OwnWalk(s: State, f: Callback, visits: seq<Visit>)
    requires Inv(s) && EditsOwn(f) && Walk(s, f, visits)
    ensures forall p | p in PassedIn(visits) :: p in Pairs(s)
    ensures PassedIn(visits) == [] || f(PassedIn(visits)).ok ==>
              forall p | p in Pairs(s) && p.obj in ObjectsIn(visits) :: p in PassedIn(visits)
    decreases |visits|
  {
    if visits != [] {
      var n := |visits| - 1;
      var before, v := visits[..n], visits[n];
      assert visits == before + [v];
      OwnWalk(s, f, before);
      OwnKeeps(s, f, before, v.obj);
      PassedSnoc(before, v);
      if v.ids == [] {
        assert PassedIn(visits) == PassedIn(before);
      } else {
        assert PassedIn(visits)[..|PassedIn(before)|] == PassedIn(before);
      }
      OwnVisit(s, f, visits);
    }
  }

  lemma {:induction false} OwnVisit(s: State, f: Callback, visits: seq<Visit>)
    requires visits != [] && LastVisit(s, f, visits)
    requires var o := visits[|visits| - 1].obj; IdsOf(After(s, f, visits[..|visits| - 1]), o) == IdsOf(s, o)
    ensures var v := visits[|visits| - 1];
            && (forall p | p in PairsFor(v.obj, v.ids) :: p in Pairs(s))
            && (PassedIn(visits) == [] || f(PassedIn(visits)).ok ==>
                  forall p | p in Pairs(s) && p.obj == v.obj :: p in PairsFor(v.obj, v.ids))
  {
    var v := visits[|visits| - 1];
    var list := PairsFor(v.obj, v.ids);
    forall p | p in list ensures p in Pairs(s) {
      PairsOf(s, p);
    }
    if PassedIn(visits) == [] || f(PassedIn(visits)).ok {
      forall p | p in Pairs(s) && p.obj == v.obj ensures p in list {
        PairsOf(s, p);
        var i :| 0 <= i < |v.ids| && v.ids[i] == p.call;
        assert list[i] == p;
      }
    }
  }

  lemma {:induction false} VisitedMore(f: Callback, passed: seq<Pair>, p: Pair)
    requires Visited(f, passed, |passed|) && p !in passed
    ensures Visited(f, passed + [p], if f(passed + [p]).ok then |passed| + 1 else -1)
  {
    var more := passed + [p];
    forall n | 0 < n < |more| ensures f(more[..n]).ok {
      assert n < |passed| ==> more[..n] == passed[..n];
      assert n == |passed| ==> more[..n] == passed;
    }
  }

  lemma {:induction false} EditsMore(f: Callback, passed: seq<Pair>, p: Pair)
    ensures EditsOf(f, passed + [p]) == EditsOf(f, passed) + f(passed + [p]).edits
  {
    assert (passed + [p])[..|passed|] == passed;
  }

  /** The edits of such a callback leave the objects alone that have not been visited. */
  lemma {:induction false} EditsApart(f: Callback, passed: seq<Pair>, objects: set<ObjectId>)
    requires EditsOwn(f) && forall p | p in passed :: p.obj !in objects
    ensures Apart(EditsOf(f, passed), objects)
  {
    if passed != [] {
      EditsApart(f, passed[..|passed| - 1], objects);
    }
  }

  lemma {:induction false} EachOnce(passed: seq<Pair>, pairs: set<Pair>)
    requires (forall i, j | 0 <= i < j < |passed| :: passed[i] != passed[j]) && forall p :: p in passed <==> p in pairs
    ensures |passed| == |pairs|
  {
    if passed != [] {
      var n := |passed| - 1;
      assert passed[n] !in passed[..n];
      assert passed == passed[..n] + [passed[n]];
      EachOnce(passed[..n], pairs - {passed[n]});
    }
  }

  class Store {
    var outer: map<ObjectId, TableId>
    var tables: map<TableId, set<CallId>>
    var weakRefs: multiset<ObjectId>
    var nextTable: nat

    ghost function S(): State
      reads this
    {
      State(outer, tables, weakRefs, nextTable)
    }

    /** bm_call_store_new */
    constructor ()
      ensures S() == EMPTY && Inv(S())
    {
      outer, tables, weakRefs, nextTable := map[], map[], multiset{}, 0;
    }

    /** An inner table and a weak reference for an object that has none. */
    method Ensure(o: ObjectId)
      modifies this
      ensures S() == EnsureStep(old(S()), o)
    {
      if o !in outer {
        tables := tables[nextTable := {}];
        outer := outer[o := nextTable];
        nextTable := nextTable + 1;
        weakRefs := weakRefs + multiset{o};
      }
    }

    method PutId(o: ObjectId, k: CallId)
      requires o in outer && outer[o] in tables
      modifies this`tables
      ensures S() == PutIds(old(S()), o, IdsOf(old(S()), o) + {k})
    {
      tables := tables[outer[o] := tables[outer[o]] + {k}];
    }

    /** bm_call_store_add */
    method Add(o: ObjectId, k: CallId)
      requires Inv(S())
      modifies this
      ensures Inv(S()) && S() == AddStep(old(S()), Pair(o, k))
    {
      AddFaithful(S(), Pair(o, k));
      EnsureFrame(S(), o);
      Ensure(o);
      PutId(o, k);
    }

    /** g_hash_table_remove, which destroys the inner table */
    method DropEntry(o: ObjectId)
      requires o in outer
      modifies this`outer, this`tables
      ensures S() == RemoveEntry(old(S()), o)
    {
      tables := tables - {outer[o]};
      outer := outer - {o};
    }

    /** The entry of an object that may have no ids left. */
    method DropIfEmpty(o: ObjectId)
      requires o in outer && outer[o] in tables
      modifies this
      ensures S() == if IdsOf(old(S()), o) == {} then UnwatchStep(RemoveEntry(old(S()), o), o) else old(S())
    {
      if |tables[outer[o]]| == 0 {
        DropEntry(o);
        weakRefs := weakRefs - multiset{o};
      }
    }

    /** bm_call_store_remove, which only warns about ids that are not there. */
    method Remove(o: ObjectId, k: CallId)
      requires Inv(S())
      modifies this
      ensures Inv(S()) && S() == RemoveStep(old(S()), Pair(o, k))
    {
      RemoveFaithful(S(), Pair(o, k));
      if o in outer {
        tables := tables[outer[o] := tables[outer[o]] - {k}];
        DropIfEmpty(o);
      }
    }

    /** object_destroyed_cb, when an object with a weak reference comes to its end */
    method ObjectDestroyed(o: ObjectId)
      requires Inv(S())
      modifies this
      ensures Inv(S()) && S() == DestroyedStep(old(S()), o)
    {
      DestroyedFaithful(S(), o);
      if o in weakRefs {
        weakRefs := weakRefs[o := 0];
        DropEntry(o);
      }
    }

    /** remove_weakref for every object */
    method UnwatchAll()
      modifies this`weakRefs
      ensures weakRefs == old(weakRefs) - multiset(outer.Keys)
    {
      ghost var before := weakRefs;
      var rest := outer.Keys;
      while rest != {}
        invariant rest <= outer.Keys && weakRefs == before - multiset(outer.Keys - rest)
        decreases rest
      {
        var o :| o in rest;
        assert multiset(outer.Keys - (rest - {o})) == multiset(outer.Keys - rest) + multiset{o};
        rest := rest - {o};
        weakRefs := weakRefs - multiset{o};
      }
      assert outer.Keys - {} == outer.Keys;
    }

    /** g_hash_table_remove_all, which destroys the inner tables */
    method DropAll()
      modifies this`outer, this`tables
      ensures outer == map[] && tables == old(tables) - old(outer).Values
    {
      tables := tables - outer.Values;
      outer := map[];
    }

    method UnwatchAndDrop()
      modifies this
      ensures S() == ClearStep(old(S()))
    {
      UnwatchAll();
      DropAll();
    }

    /** bm_call_store_clear */
    method Clear()
      requires Inv(S())
      modifies this
      ensures Inv(S()) && S() == ClearStep(old(S()))
    {
      ClearFaithful(S());
      UnwatchAndDrop();
    }

    /** bm_call_store_destroy */
    method Destroy()
      requires Inv(S())
      modifies this`outer, this`tables
      ensures S() == DestroyStep(old(S()))
    {
      DropAll();
    }

    method ApplyOne(e: Edit)
      requires Inv(S())
      modifies this
      ensures Inv(S()) && S() == EditStep(old(S()), e)
    {
      match e {
        case Add(p) => Add(p.obj, p.call);
        case Remove(p) => Remove(p.obj, p.call);
        case Destroyed(o) => ObjectDestroyed(o);
        case Clear => Clear();
      }
    }

    /** The edits made by one call of a callback. */
    method Apply(edits: seq<Edit>)
      requires Inv(S())
      modifies this
      ensures Inv(S()) && S() == RunFrom(old(S()), edits)
    {
      ghost var s := S();
      var i := 0;
      while i < |edits|
        invariant 0 <= i <= |edits| && Inv(S()) && S() == RunFrom(s, edits[..i])
      {
        RunPrefix(s, edits, i);
        ApplyOne(edits[i]);
        i := i + 1;
      }
      assert edits[..i] == edits;
    }

    /** get_call_ids: the ids of an inner table, in any order. */
    method GetCallIds(t: TableId) returns (ids: seq<CallId>)
      requires t in tables
      ensures (forall i, j | 0 <= i < j < |ids| :: ids[i] != ids[j]) && forall k :: k in ids <==> k in tables[t]
    {
      ids := [];
      var rest := tables[t];
      while rest != {}
        invariant rest <= tables[t]
        invariant forall i, j | 0 <= i < j < |ids| :: ids[i] != ids[j]
        invariant forall k :: k in ids <==> k in tables[t] - rest
        decreases rest
      {
        var k :| k in rest;
        rest := rest - {k};
        assert k !in ids;
        ids := [k] + ids;
      }
    }

    /** call_callback */
    method CallCallback(o: ObjectId, k: CallId, f: Callback, passed0: seq<Pair>, count0: int, ghost s: State)
      returns (passed: seq<Pair>, count: int)
      requires Inv(S()) && S() == RunFrom(s, EditsOf(f, passed0))
      requires Visited(f, passed0, count0) && Pair(o, k) !in passed0
      modifies this
      ensures Inv(S()) && S() == RunFrom(s, EditsOf(f, passed)) && Visited(f, passed, count)
      ensures passed == if count0 >= 0 then passed0 + [Pair(o, k)] else passed0
      ensures count0 < 0 ==> count < 0
    {
      passed, count := passed0, count0;
      if count >= 0 {
        passed := passed + [Pair(o, k)];
        VisitedMore(f, passed0, Pair(o, k));
        EditsMore(f, passed0, Pair(o, k));
        RunSplit(s, EditsOf(f, passed0), f(passed).edits);
        Apply(f(passed).edits);
        if f(passed).ok {
          count := count + 1;
        } else {
          count := -1;
        }
      }
    }

    /** g_slist_foreach over a copy of an object's ids: the first n of them are passed. */
    method CallAll(o: ObjectId, ids: seq<CallId>, f: Callback, passed0: seq<Pair>, count0: int, ghost s: State)
      returns (passed: seq<Pair>, count: int, ghost n: nat)
      requires Inv(S()) && S() == RunFrom(s, EditsOf(f, passed0))
      requires Visited(f, passed0, count0) && forall p | p in passed0 :: p.obj != o
      requires forall i, j | 0 <= i < j < |ids| :: ids[i] != ids[j]
      modifies this
      ensures Inv(S()) && S() == RunFrom(s, EditsOf(f, passed)) && Visited(f, passed, count)
      ensures n <= |ids| && passed == passed0 + PairsFor(o, ids[..n])
      ensures count >= 0 ==> n == |ids|
    {
      passed, count, n := passed0, count0, 0;
      assert passed0 + PairsFor(o, ids[..0]) == passed0;
      var i := 0;
      while i < |ids|
        invariant 0 <= i <= |ids| && n <= i && (count >= 0 ==> n == i)
        invariant Inv(S()) && S() == RunFrom(s, EditsOf(f, passed)) && Visited(f, passed, count)
        invariant passed == passed0 + PairsFor(o, ids[..n])
      {
        NotPassed(o, ids, n, i, passed0);
        if count >= 0 {
          OneMore(o, ids, i, passed0);
          n := i + 1;
        }
        passed, count := CallCallback(o, ids[i], f, passed, count, s);
        i := i + 1;
      }
    }

    /** call_all_callbacks: t is the object's table in the copied store. */
    method VisitTable(
      t: TableId, o: ObjectId, f: Callback, passed0: seq<Pair>, count0: int, ghost s: State, ghost visits0: seq<Visit>)
      returns (passed: seq<Pair>, count: int, ghost visits: seq<Visit>)
      requires o in s.outer && o !in ObjectsIn(visits0) && forall p | p in passed0 :: p.obj != o
      requires t in tables && tables[t] == IdsOf(After(s, f, visits0), o)
      requires Inv(S()) && S() == RunFrom(s, EditsOf(f, passed0)) && Visited(f, passed0, count0)
      requires Walk(s, f, visits0) && passed0 == PassedIn(visits0)
      modifies this
      ensures Inv(S()) && S() == RunFrom(s, EditsOf(f, passed)) && Visited(f, passed, count)
      ensures Walk(s, f, visits) && passed == PassedIn(visits) && ObjectsIn(visits) == ObjectsIn(visits0) + {o}
    {
      var ids := GetCallIds(t);
      ghost var n;
      passed, count, n := CallAll(o, ids, f, passed0, count0, s);
      visits := visits0 + [Visit(o, ids[..n])];
      WalkMore(s, f, visits0, o, ids, n, count);
    }

    /**
     bm_call_store_foreach for one object, whatever the callback does. A NULL result of the lookup
     is the warning that the object is not in the store.
     */
    method ForeachOf(o: ObjectId, f: Callback) returns (passed: seq<Pair>, count: int)
      requires Inv(S())
      modifies this
      ensures Inv(S()) && S() == RunFrom(old(S()), EditsOf(f, passed))
      ensures IdsOf(old(S()), o) == {} ==> passed == [] && count == -1
      ensures IdsOf(old(S()), o) != {} ==> Visited(f, passed, count)
      ensures forall p | p in passed :: p in Pairs(old(S())) && p.obj == o
      ensures count >= 0 ==> forall p | p in Pairs(old(S())) && p.obj == o :: p in passed
    {
      if o !in outer {
        return [], -1;
      }
      ghost var s := S();
      var ids := GetCallIds(outer[o]);
      ghost var n;
      passed, count, n := CallAll(o, ids, f, [], 0, s);
      assert [] + PairsFor(o, ids[..n]) == PairsFor(o, ids[..n]);
      ListedPairs(s, o, ids, n);
    }

    method VisitObject(
      t: TableId, o: ObjectId, f: Callback, passed0: seq<Pair>, count0: int, ghost s: State, ghost visits0: seq<Visit>)
      returns (passed: seq<Pair>, count: int, ghost visits: seq<Visit>)
      requires Inv(s) && Serves(s, f) && o in s.outer && s.outer[o] == t && o !in ObjectsIn(visits0)
      requires S() == RunFrom(s, EditsOf(f, passed0)) && Underway(s, f, passed0, count0, visits0)
      modifies this
      ensures S() == RunFrom(s, EditsOf(f, passed)) && Underway(s, f, passed, count, visits)
      ensures ObjectsIn(visits) == ObjectsIn(visits0) + {o}
    {
      Visitable(s, f, visits0, o);
      RunFaithful(s, EditsOf(f, passed0));
      passed, count, visits := VisitTable(t, o, f, passed0, count0, s, visits0);
    }

    /** g_hash_table_foreach over a copy of the outer table */
    method VisitAll(copy: map<ObjectId, TableId>, f: Callback, ghost s: State)
      returns (passed: seq<Pair>, count: int, ghost visits: seq<Visit>)
      requires Inv(s) && Serves(s, f) && S() == s && copy == s.outer
      modifies this
      ensures S() == RunFrom(s, EditsOf(f, passed)) && Underway(s, f, passed, count, visits)
      ensures ObjectsIn(visits) == copy.Keys
    {
      var rest := copy.Keys;
      passed, count, visits := [], 0, [];
      NoVisits(s, f);
      while rest != {}
        invariant rest <= copy.Keys && ObjectsIn(visits) == copy.Keys - rest
        invariant S() == RunFrom(s, EditsOf(f, passed)) && Underway(s, f, passed, count, visits)
        decreases rest
      {
        var o :| o in rest;
        passed, count, visits := VisitObject(copy[o], o, f, passed, count, s, visits);
        rest := rest - {o};
      }
    }

    /**
     bm_call_store_foreach for all objects: the outer table is copied, and the copy's references to
     inner tables are followed while the callback edits the store. Every object of the store is
     visited, and the callback is passed the ids it has by then.
     */
    method ForeachAll(f: Callback) returns (passed: seq<Pair>, count: int, ghost visits: seq<Visit>)
      requires Inv(S()) && Serves(S(), f)
      modifies this
      ensures Inv(S()) && S() == RunFrom(old(S()), EditsOf(f, passed))
      ensures Visited(f, passed, count)
      ensures Walk(old(S()), f, visits) && ObjectsIn(visits) == old(S()).outer.Keys && passed == PassedIn(visits)
      ensures EditsOwn(f) ==> PassedAtEntry(old(S()), passed, count)
    {
      ghost var s := S();
      passed, count, visits := VisitAll(outer, f, s);
      RunFaithful(s, EditsOf(f, passed));
      if EditsOwn(f) {
        OwnPassed(s, f, visits, passed, count);
      }
    }
  }

  /** Exactly the pairs of the store, each once, up to the first FALSE. */
  ghost predicate PassedAtEntry(s: State, passed: seq<Pair>, count: int) {
    && (forall p | p in passed :: p in Pairs(s))
    && (count >= 0 ==> count == |Pairs(s)| && forall p | p in Pairs(s) :: p in passed)
  }

  lemma {:induction false} OwnPassed(s: State, f: Callback, visits: seq<Visit>, passed: seq<Pair>, count: int)
    requires Inv(s) && EditsOwn(f) && Walk(s, f, visits) && ObjectsIn(visits) == s.outer.Keys
    requires passed == PassedIn(visits) && Visited(f, passed, count)
    ensures PassedAtEntry(s, passed, count)
  {
    OwnWalk(s, f, visits);
    if count >= 0 {
      EachOnce(passed, Pairs(s));
    }
  }

  lemma {:induction false} NotPassed(o: ObjectId, ids: seq<CallId>, n: nat, i: nat, from: seq<Pair>)
    requires n <= i < |ids| && (forall j, k | 0 <= j < k < |ids| :: ids[j] != ids[k])
    requires forall p | p in from :: p.obj != o
    ensures Pair(o, ids[i]) !in from + PairsFor(o, ids[..n])
  {
  }

  lemma {:induction false} OneMore(o: ObjectId, ids: seq<CallId>, i: nat, from: seq<Pair>)
    requires i < |ids|
    ensures from + PairsFor(o, ids[..i]) + [Pair(o, ids[i])] == from + PairsFor(o, ids[..i + 1])
  {
    assert PairsFor(o, ids[..i + 1]) == PairsFor(o, ids[..i]) + [Pair(o, ids[i])];
  }

  lemma {:induction false} NoVisits(s: State, f: Callback)
    ensures Walk(s, f, []) && PassedIn([]) == [] && ObjectsIn([]) == {} && RunFrom(s, EditsOf(f, [])) == s
  {
  }

  /** The table of the next object is there when it is visited. */
  lemma {:induction false} Visitable(s: State, f: Callback, visits: seq<Visit>, o: ObjectId)
    requires Inv(s) && Serves(s, f) && Walk(s, f, visits) && o in s.outer && o !in ObjectsIn(visits)
    ensures s.outer[o] in After(s, f, visits).tables
    ensures IdsOf(After(s, f, visits), o) == After(s, f, visits).tables[s.outer[o]]
    ensures forall p | p in PassedIn(visits) :: p.obj != o
  {
    assert Due(s, f, visits, o);
    DueTable(s, f, visits, o);
    PassedObjects(visits);
  }

  lemma {:induction false} WalkMore(
    s: State, f: Callback, before: seq<Visit>, o: ObjectId, ids: seq<CallId>, n: nat, count: int)
    requires Walk(s, f, before) && o in s.outer && o !in ObjectsIn(before) && n <= |ids|
    requires forall i, j | 0 <= i < j < |ids| :: ids[i] != ids[j]
    requires forall k :: k in ids <==> k in IdsOf(After(s, f, before), o)
    requires Visited(f, PassedIn(before) + PairsFor(o, ids[..n]), count) && (count >= 0 ==> n == |ids|)
    ensures var visits := before + [Visit(o, ids[..n])];
            && Walk(s, f, visits) && PassedIn(visits) == PassedIn(before) + PairsFor(o, ids[..n])
            && ObjectsIn(visits) == ObjectsIn(before) + {o}
  {
    var v := Visit(o, ids[..n]);
    assert (before + [v])[..|before|] == before;
    assert n == |ids| ==> ids[..n] == ids;
    PassedSnoc(before, v);
    assert LastVisit(s, f, before + [v]);
  }

  lemma {:induction false} ListedPairs(s: State, o: ObjectId, ids: seq<CallId>, n: nat)
    requires n <= |ids| && forall k :: k in ids <==> k in IdsOf(s, o)
    ensures forall p | p in PairsFor(o, ids[..n]) :: p in Pairs(s) && p.obj == o
    ensures n == |ids| ==> forall p | p in Pairs(s) && p.obj == o :: p in PairsFor(o, ids[..n])
  {
    var list := PairsFor(o, ids[..n]);
    forall p | p in list ensures p in Pairs(s) {
      PairsOf(s, p);
    }
    if n == |ids| {
      forall p | p in Pairs(s) && p.obj == o ensures p in list {
        PairsOf(s, p);
        var i :| 0 <= i < |ids| && ids[i] == p.call;
        assert list[i] == p;
      }
    }
  }
}
