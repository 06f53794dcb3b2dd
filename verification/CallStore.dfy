/**
 The store of outstanding calls per object (src/bm-call-store.c): a table of objects whose values
 are tables of call ids, with one weak reference to each object.

 Inner tables are entries of a heap, and destroying one removes its entry, so a table can be read
 through a copied reference only while it is still there.
 */
module CallStore {
  import opened Maps

  type ObjectId = nat
  type CallId = nat
  type TableId = nat

  datatype Pair = Pair(obj: ObjectId, call: CallId)

  datatype State = State(
    outer: map<ObjectId, TableId>, tables: map<TableId, set<CallId>>, weakRefs: multiset<ObjectId>, nextTable: nat)

  const EMPTY := State(map[], map[], multiset{}, 0)

  /** What may be done to the store; `Destroyed` is the end of an object. */
  datatype Edit = Add(pair: Pair) | Remove(pair: Pair) | Destroyed(obj: ObjectId) | Clear

  /** The ids of an object: those in its table. */
  function IdsOf(s: State, o: ObjectId): set<CallId> {
    if o in s.outer && s.outer[o] in s.tables then s.tables[s.outer[o]] else {}
  }

  function Pairs(s: State): set<Pair> {
    set o, k | o in s.outer && k in IdsOf(s, o) :: Pair(o, k)
  }

  ghost predicate Tabled(outer: map<ObjectId, TableId>, tables: map<TableId, set<CallId>>, nextTable: nat) {
    && (forall o | o in outer :: outer[o] in tables && outer[o] < nextTable)
    && (forall o, p | o in outer && p in outer && o != p :: outer[o] != outer[p])
  }

  ghost predicate Used(outer: map<ObjectId, TableId>, t: TableId) {
    exists o :: o in outer && outer[o] == t
  }

  ghost predicate NoneUnused(outer: map<ObjectId, TableId>, tables: map<TableId, set<CallId>>) {
    forall t | t in tables :: Used(outer, t)
  }

  ghost predicate Watched(outer: map<ObjectId, TableId>, weakRefs: multiset<ObjectId>) {
    forall o :: weakRefs[o] == if o in outer then 1 else 0
  }

  ghost predicate NoneEmpty(s: State) {
    forall o | o in s.outer :: IdsOf(s, o) != {}
  }

  ghost predicate Linked(s: State) {
    Tabled(s.outer, s.tables, s.nextTable) && NoneUnused(s.outer, s.tables) && Watched(s.outer, s.weakRefs)
  }

  /**
   Each object has a table of its own, no table is unused or empty, and exactly the objects in the
   store have a weak reference, each one.
   */
  ghost predicate Inv(s: State) {
    Linked(s) && NoneEmpty(s)
  }

  // ---------- The operations ----------

  /** An entry for the object, with a weak reference, if there was none. */
  function EnsureStep(s: State, o: ObjectId): State {
    if o in s.outer then s
    else State(s.outer[o := s.nextTable], s.tables[s.nextTable := {}], s.weakRefs + multiset{o}, s.nextTable + 1)
  }

  /** g_hash_table_remove on the store, which destroys the inner table. */
  function RemoveEntry(s: State, o: ObjectId): State {
    if o in s.outer then s.(outer := s.outer - {o}, tables := s.tables - {s.outer[o]}) else s
  }

  function PutIds(s: State, o: ObjectId, ids: set<CallId>): State {
    if o in s.outer then s.(tables := s.tables[s.outer[o] := ids]) else s
  }

  /** bm_call_store_add */
  function AddStep(s: State, p: Pair): State {
    PutIds(EnsureStep(s, p.obj), p.obj, IdsOf(EnsureStep(s, p.obj), p.obj) + {p.call})
  }

  function UnwatchStep(s: State, o: ObjectId): State {
    s.(weakRefs := s.weakRefs - multiset{o})
  }

  /** bm_call_store_remove */
  function RemoveStep(s: State, p: Pair): State {
    if p.obj !in s.outer then s
    else
      var left := IdsOf(s, p.obj) - {p.call};
      var s' := PutIds(s, p.obj, left);
      if left == {} then UnwatchStep(RemoveEntry(s', p.obj), p.obj) else s'
  }

  /** The end of an object: its weak references fire, calling objdestroyed_cb, and are gone. */
  function DestroyedStep(s: State, o: ObjectId): State {
    if o in s.weakRefs then RemoveEntry(s, o).(weakRefs := s.weakRefs[o := 0]) else s
  }

  /** bm_call_store_clear */
  function ClearStep(s: State): State {
    State(map[], s.tables - s.outer.Values, s.weakRefs - multiset(s.outer.Keys), s.nextTable)
  }

  function EditStep(s: State, e: Edit): State {
    match e
    case Add(p) => AddStep(s, p)
    case Remove(p) => RemoveStep(s, p)
    case Destroyed(o) => DestroyedStep(s, o)
    case Clear => ClearStep(s)
  }

  function RunFrom(s: State, edits: seq<Edit>): State
    decreases |edits|
  {
    if edits == [] then s else EditStep(RunFrom(s, edits[..|edits| - 1]), edits[|edits| - 1])
  }

  // ---------- The set of pairs the store stands for ----------

  /** What an edit means for the set of pairs. */
  function Edited(pairs: set<Pair>, e: Edit): set<Pair> {
    match e
    case Add(p) => pairs + {p}
    case Remove(p) => pairs - {p}
    case Destroyed(o) => set p | p in pairs && p.obj != o
    case Clear => {}
  }

  function Replayed(pairs: set<Pair>, edits: seq<Edit>): set<Pair>
    decreases |edits|
  {
    if edits == [] then pairs else Edited(Replayed(pairs, edits[..|edits| - 1]), edits[|edits| - 1])
  }

  /** The state has the ids, and the table, of every object but one. */
  ghost predicate SameBut(s: State, t: State, o: ObjectId) {
    forall p | p != o ::
      && (p in s.outer <==> p in t.outer)
      && (p in s.outer ==> s.outer[p] == t.outer[p] && IdsOf(s, p) == IdsOf(t, p))
  }

  lemma UnusedEnsure(outer: map<ObjectId, TableId>, tables: map<TableId, set<CallId>>, o: ObjectId, k: TableId)
    requires NoneUnused(outer, tables) && o !in outer
    ensures NoneUnused(outer[o := k], tables[k := {}])
  {
    var outer', tables' := outer[o := k], tables[k := {}];
    forall t | t in tables' ensures Used(outer', t) {
      if t == k {
        assert outer'[o] == t;
      } else {
        assert Used(outer, t);
        var p :| p in outer && outer[p] == t;
        assert outer'[p] == t;
      }
    }
  }

  lemma TabledEnsure(outer: map<ObjectId, TableId>, tables: map<TableId, set<CallId>>, o: ObjectId, k: TableId)
    requires Tabled(outer, tables, k) && o !in outer
    ensures Tabled(outer[o := k], tables[k := {}], k + 1)
  {
  }

  lemma EnsureFrame(s: State, o: ObjectId)
    requires Linked(s)
    ensures var t := EnsureStep(s, o);
            Linked(t) && o in t.outer && SameBut(s, t, o) && IdsOf(t, o) == IdsOf(s, o)
  {
    if o !in s.outer {
      UnusedEnsure(s.outer, s.tables, o, s.nextTable);
      TabledEnsure(s.outer, s.tables, o, s.nextTable);
    }
  }

  lemma PutFrame(s: State, o: ObjectId, ids: set<CallId>)
    requires Linked(s) && o in s.outer
    ensures var t := PutIds(s, o, ids);
            Linked(t) && t.outer == s.outer && SameBut(s, t, o) && IdsOf(t, o) == ids
  {
    assert NoneUnused(s.outer, s.tables[s.outer[o] := ids]);
  }

  lemma UnusedRemove(outer: map<ObjectId, TableId>, tables: map<TableId, set<CallId>>, o: ObjectId)
    requires NoneUnused(outer, tables) && o in outer
    ensures NoneUnused(outer - {o}, tables - {outer[o]})
  {
    forall t | t in tables - {outer[o]} ensures Used(outer - {o}, t) {
      var p :| p in outer && outer[p] == t;
      assert (outer - {o})[p] == t;
    }
  }

  lemma DropFrame(s: State, o: ObjectId)
    requires Linked(s) && o in s.outer
    ensures var t := UnwatchStep(RemoveEntry(s, o), o);
            Linked(t) && t.outer == s.outer - {o} && SameBut(s, t, o)
  {
    UnusedRemove(s.outer, s.tables, o);
  }

  lemma StillFull(s: State, t: State, o: ObjectId)
    requires NoneEmpty(s) && SameBut(s, t, o) && (o in t.outer ==> IdsOf(t, o) != {})
    ensures NoneEmpty(t)
  {
  }

  lemma SameButTwice(s: State, t: State, u: State, o: ObjectId)
    requires SameBut(s, t, o) && SameBut(t, u, o)
    ensures SameBut(s, u, o)
  {
  }

  lemma AddFaithful(s: State, p: Pair)
    requires Inv(s)
    ensures Inv(AddStep(s, p)) && SameBut(s, AddStep(s, p), p.obj)
    ensures IdsOf(AddStep(s, p), p.obj) == IdsOf(s, p.obj) + {p.call}
  {
    var o, t, u := p.obj, EnsureStep(s, p.obj), AddStep(s, p);
    EnsureFrame(s, o);
    PutFrame(t, o, IdsOf(t, o) + {p.call});
    SameButTwice(s, t, u, o);
    StillFull(s, u, o);
  }

  lemma RemoveFaithful(s: State, p: Pair)
    requires Inv(s)
    ensures Inv(RemoveStep(s, p)) && SameBut(s, RemoveStep(s, p), p.obj)
    ensures IdsOf(RemoveStep(s, p), p.obj) == IdsOf(s, p.obj) - {p.call}
  {
    if p.obj in s.outer {
      var o, left := p.obj, IdsOf(s, p.obj) - {p.call};
      PutFrame(s, o, left);
      if left == {} {
        DropFrame(PutIds(s, o, left), o);
        SameButTwice(s, PutIds(s, o, left), RemoveStep(s, p), o);
      }
      StillFull(s, RemoveStep(s, p), o);
    }
  }

  lemma DestroyedFaithful(s: State, o: ObjectId)
    requires Inv(s)
    ensures Inv(DestroyedStep(s, o)) && SameBut(s, DestroyedStep(s, o), o) && IdsOf(DestroyedStep(s, o), o) == {}
  {
    if o in s.outer {
      DropFrame(s, o);
      StillFull(s, UnwatchStep(RemoveEntry(s, o), o), o);
      assert s.weakRefs[o := 0] == s.weakRefs - multiset{o};
    }
  }

  /** Clearing leaves nothing behind. */
  lemma ClearFaithful(s: State)
    requires Inv(s)
    ensures ClearStep(s) == EMPTY.(nextTable := s.nextTable) && Inv(ClearStep(s)) && Pairs(ClearStep(s)) == {}
  {
    assert s.weakRefs == multiset(s.outer.Keys);
  }

  lemma PairsOf(s: State, p: Pair)
    ensures p in Pairs(s) <==> p.call in IdsOf(s, p.obj)
  {
  }

  lemma PairsBut(s: State, t: State, o: ObjectId, p: Pair)
    requires SameBut(s, t, o) && p.obj != o
    ensures p in Pairs(t) <==> p in Pairs(s)
  {
    PairsOf(s, p);
    PairsOf(t, p);
  }

  /** Every operation keeps the two-level form, and does to the set of pairs what its name says. */
  lemma EditFaithful(s: State, e: Edit)
    requires Inv(s)
    ensures Inv(EditStep(s, e)) && Pairs(EditStep(s, e)) == Edited(Pairs(s), e)
  {
    if e.Clear? {
      ClearFaithful(s);
    } else {
      EditFrame(s, e);
      EditPairs(s, EditStep(s, e), e);
    }
  }

  lemma EditPairs(s: State, t: State, e: Edit)
    requires !e.Clear? && SameBut(s, t, ObjectOf(e)) && IdsOf(t, ObjectOf(e)) == IdsAfter(IdsOf(s, ObjectOf(e)), e)
    ensures Pairs(t) == Edited(Pairs(s), e)
  {
    forall p ensures p in Pairs(t) <==> p in Edited(Pairs(s), e) {
      PairsOf(s, p);
      PairsOf(t, p);
      if p.obj != ObjectOf(e) {
        PairsBut(s, t, ObjectOf(e), p);
      }
    }
  }

  function ObjectOf(e: Edit): ObjectId {
    match e
    case Add(p) => p.obj
    case Remove(p) => p.obj
    case Destroyed(o) => o
    case Clear => 0
  }

  function IdsAfter(ids: set<CallId>, e: Edit): set<CallId> {
    match e
    case Add(p) => ids + {p.call}
    case Remove(p) => ids - {p.call}
    case _ => {}
  }

  /** An edit of an object leaves all others alone. */
  lemma EditFrame(s: State, e: Edit)
    requires Inv(s) && !e.Clear?
    ensures Inv(EditStep(s, e)) && SameBut(s, EditStep(s, e), ObjectOf(e))
    ensures IdsOf(EditStep(s, e), ObjectOf(e)) == IdsAfter(IdsOf(s, ObjectOf(e)), e)
  {
    match e
    case Add(p) => AddFaithful(s, p);
    case Remove(p) => RemoveFaithful(s, p);
    case Destroyed(o) => DestroyedFaithful(s, o);
    case Clear =>
  }

  /** So does every run. */
  lemma {:induction false} RunFaithful(s: State, edits: seq<Edit>)
    requires Inv(s)
    ensures Inv(RunFrom(s, edits)) && Pairs(RunFrom(s, edits)) == Replayed(Pairs(s), edits)
    decreases |edits|
  {
    if edits != [] {
      RunFaithful(s, edits[..|edits| - 1]);
      EditFaithful(RunFrom(s, edits[..|edits| - 1]), edits[|edits| - 1]);
    }
  }

  // ---------- Editing the store while it is being visited ----------

  ghost predicate HasIds(pairs: set<Pair>, o: ObjectId) {
    exists p :: p in pairs && p.obj == o
  }

  lemma HasIdsOf(s: State, o: ObjectId)
    ensures HasIds(Pairs(s), o) <==> IdsOf(s, o) != {}
  {
    if k :| k in IdsOf(s, o) {
      PairsOf(s, Pair(o, k));
    }
  }

  /** bm_call_store_destroy: the outer table goes with all inner ones; weak references are not dropped. */
  function DestroyStep(s: State): State {
    State(map[], s.tables - s.outer.Values, s.weakRefs, s.nextTable)
  }

  /**
   Destroying the store leaves one weak reference to each object that has ids, so it ends cleanly
   iff it holds no pairs.
   */
  lemma DestroyLeaves(s: State)
    requires Inv(s)
    ensures var t := DestroyStep(s);
            && t.outer == map[] && t.tables == map[]
            && (forall o :: t.weakRefs[o] == if HasIds(Pairs(s), o) then 1 else 0)
            && (t.weakRefs == multiset{} <==> Pairs(s) == {})
  {
    forall o ensures s.weakRefs[o] == if HasIds(Pairs(s), o) then 1 else 0 {
      HasIdsOf(s, o);
    }
    if p :| p in Pairs(s) {
      assert HasIds(Pairs(s), p.obj) && s.weakRefs[p.obj] == 1;
    }
  }

  /** Object o still has the table it had as number t. */
  ghost predicate Keeps(s: State, o: ObjectId, t: TableId) {
    o in s.outer && s.outer[o] == t
  }

  /** An object keeps its table as long as it has ids; the table does not change hands. */
  lemma KeepsStep(s: State, e: Edit, o: ObjectId, t: TableId)
    requires Inv(s) && Keeps(s, o, t)
    ensures t in EditStep(s, e).tables <==> Keeps(EditStep(s, e), o, t)
    ensures Keeps(EditStep(s, e), o, t) <==> HasIds(Pairs(EditStep(s, e)), o)
  {
    HasIdsOf(EditStep(s, e), o);
    if !e.Clear? {
      EditFrame(s, e);
    } else {
      ClearFaithful(s);
    }
  }

  lemma GoneKept(s: State, e: Edit, t: TableId)
    requires t < s.nextTable && t !in s.tables && forall o | o in s.outer :: s.outer[o] in s.tables
    ensures t !in EditStep(s, e).tables
  {
    match e
    case Add(p) =>
      var u := EnsureStep(s, p.obj);
      assert t !in u.tables && u.outer[p.obj] in u.tables;
    case Remove(p) =>
    case Destroyed(o) =>
    case Clear =>
  }

  /** The number of a table that is gone is not used again. */
  lemma GoneStep(s: State, e: Edit, t: TableId)
    requires Inv(s) && t < s.nextTable && t !in s.tables
    ensures t !in EditStep(s, e).tables
  {
    GoneKept(s, e, t);
  }

  lemma {:induction false} NextTableGrows(s: State, edits: seq<Edit>)
    ensures s.nextTable <= RunFrom(s, edits).nextTable
    decreases |edits|
  {
    if edits != [] {
      NextTableGrows(s, edits[..|edits| - 1]);
    }
  }

  /** The object has ids all through the edits. */
  ghost predicate NeverEmptied(pairs: set<Pair>, edits: seq<Edit>, o: ObjectId) {
    forall n | 0 <= n <= |edits| :: HasIds(Replayed(pairs, edits[..n]), o)
  }

  lemma NeverEmptiedMore(pairs: set<Pair>, edits: seq<Edit>, o: ObjectId)
    requires edits != []
    ensures NeverEmptied(pairs, edits, o) <==>
            NeverEmptied(pairs, edits[..|edits| - 1], o) && HasIds(Replayed(pairs, edits), o)
  {
    var before := edits[..|edits| - 1];
    forall n | 0 <= n <= |before| ensures before[..n] == edits[..n] {
    }
    assert edits[..|edits|] == edits;
    if NeverEmptied(pairs, before, o) && HasIds(Replayed(pairs, edits), o) {
      forall n | 0 <= n <= |edits| ensures HasIds(Replayed(pairs, edits[..n]), o) {
        if n < |edits| {
          assert before[..n] == edits[..n];
        }
      }
    }
  }

  /**
   A table read through a copy of the store is still there iff its object had ids all the time since
   the copy was made: handlers may empty the entry of no object that is still to be visited.
   */
  lemma {:induction false} TableStaysIff(s: State, edits: seq<Edit>, o: ObjectId)
    requires Inv(s) && o in s.outer
    ensures s.outer[o] in RunFrom(s, edits).tables <==> NeverEmptied(Pairs(s), edits, o)
    ensures s.outer[o] in RunFrom(s, edits).tables <==> Keeps(RunFrom(s, edits), o, s.outer[o])
    decreases |edits|
  {
    HasIdsOf(s, o);
    if edits != [] {
      var before, e := edits[..|edits| - 1], edits[|edits| - 1];
      TableStaysIff(s, before, o);
      RunFaithful(s, before);
      RunFaithful(s, edits);
      NeverEmptiedMore(Pairs(s), edits, o);
      NextTableGrows(s, before);
      if Keeps(RunFrom(s, before), o, s.outer[o]) {
        KeepsStep(RunFrom(s, before), e, o, s.outer[o]);
      } else {
        GoneStep(RunFrom(s, before), e, s.outer[o]);
      }
    }
  }

  /** The edits leave the objects alone. */
  ghost predicate Apart(edits: seq<Edit>, objects: set<ObjectId>) {
    forall e | e in edits :: (e.Add? || e.Remove?) && e.pair.obj !in objects
  }

  lemma {:induction false} RunApart(s: State, edits: seq<Edit>, objects: set<ObjectId>)
    requires Inv(s) && Apart(edits, objects) && objects <= s.outer.Keys
    ensures var t := RunFrom(s, edits);
            && Inv(t) && objects <= t.outer.Keys
            && forall o | o in objects :: t.outer[o] == s.outer[o] && IdsOf(t, o) == IdsOf(s, o)
    decreases |edits|
  {
    if edits != [] {
      var before, e := edits[..|edits| - 1], edits[|edits| - 1];
      RunApart(s, before, objects);
      assert e in edits;
      EditFrame(RunFrom(s, before), e);
    }
  }

  lemma RunPrefix(s: State, edits: seq<Edit>, i: nat)
    requires i < |edits|
    ensures RunFrom(s, edits[..i + 1]) == EditStep(RunFrom(s, edits[..i]), edits[i])
  {
    assert edits[..i + 1][..i] == edits[..i];
  }

  lemma RunMore(s: State, edits: seq<Edit>, e: Edit)
    ensures RunFrom(s, edits + [e]) == EditStep(RunFrom(s, edits), e)
  {
    assert (edits + [e])[..|edits|] == edits;
  }

  lemma SplitSnoc(edits: seq<Edit>, more: seq<Edit>)
    requires more != []
    ensures var before, e := more[..|more| - 1], more[|more| - 1];
            before + [e] == more && edits + before + [e] == edits + more
  {
  }

  lemma {:induction false} RunSplit(s: State, edits: seq<Edit>, more: seq<Edit>)
    ensures RunFrom(s, edits + more) == RunFrom(RunFrom(s, edits), more)
    decreases |more|
  {
    if more == [] {
      assert edits + more == edits;
    } else {
      var before, e := more[..|more| - 1], more[|more| - 1];
      RunSplit(s, edits, before);
      RunMore(s, edits + before, e);
      RunMore(RunFrom(s, edits), before, e);
      SplitSnoc(edits, more);
    }
  }
}
