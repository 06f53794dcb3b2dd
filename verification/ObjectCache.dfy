/**
 Reference-counted objects, the cache that finds a live object by its path without owning it
 (libbm-glib/bm-object-cache.c), and arrays that own one reference a slot (libbm-glib/bm-types.c).

 Live objects are entries of a table, and an object whose last reference goes is taken out of it,
 so whoever looks an object up must still hold a reference to it.
 */
module ObjectCache {
  import opened Maps

  type ObjId = nat

  datatype Obj = Obj(path: string, refs: nat)

  datatype Heap = Heap(objs: map<ObjId, Obj>, cache: map<string, ObjId>, nextId: nat)

  /** What a creator does: nothing, a construction that fails half-way, or an object. */
  datatype Creation = Refused | Broken | Created

  /** A path to demarshal, and what the creator would do if asked for it now. */
  datatype Entry = Entry(path: string, creation: Creation)

  /**
   The references counted are the references held, and the cache maps a path to an object iff the
   object is live with that path.
   */
  ghost predicate Sound(h: Heap, held: multiset<ObjId>) {
    && (forall o :: o in h.objs <==> o in held)
    && (forall o | o in h.objs :: h.objs[o].refs == held[o] && o < h.nextId)
    && (forall o | o in h.objs :: h.objs[o].path in h.cache && h.cache[h.objs[o].path] == o)
    && (forall p | p in h.cache :: h.cache[p] in h.objs && h.objs[h.cache[p]].path == p)
  }

  predicate Live(h: Heap, o: ObjId) {
    o in h.objs && h.objs[o].refs > 0
  }

  /** g_object_ref */
  function RefStep(h: Heap, o: ObjId): Heap {
    if o in h.objs then h.(objs := h.objs[o := Obj(h.objs[o].path, h.objs[o].refs + 1)]) else h
  }

  /** g_object_unref; the cache tag's destroy notification removes the path. */
  function UnrefStep(h: Heap, o: ObjId): Heap {
    if !Live(h, o) then h
    else if h.objs[o].refs > 1 then h.(objs := h.objs[o := Obj(h.objs[o].path, h.objs[o].refs - 1)])
    else h.(objs := h.objs - {o}, cache := h.cache - {h.objs[o].path})
  }

  /** A new object, registered in the cache. */
  function RegisterStep(h: Heap, path: string): Heap {
    Heap(h.objs[h.nextId := Obj(path, 1)], h.cache[path := h.nextId], h.nextId + 1)
  }

  /** The object constructor and the creator around it. */
  function CreateStep(h: Heap, path: string, c: Creation): Heap {
    match c
    case Refused => h
    case Broken => UnrefStep(RegisterStep(h, path), h.nextId)
    case Created => RegisterStep(h, path)
  }

  function CreatedId(h: Heap, c: Creation): Option<ObjId> {
    if c == Created then Some(h.nextId) else None
  }

  function ObtainStep(h: Heap, e: Entry): Heap {
    if e.path in h.cache then RefStep(h, h.cache[e.path]) else CreateStep(h, e.path, e.creation)
  }

  function ObtainedId(h: Heap, e: Entry): Option<ObjId> {
    if e.path in h.cache then Some(h.cache[e.path]) else CreatedId(h, e.creation)
  }

  function Ids(o: Option<ObjId>): multiset<ObjId> {
    if o.Some? then multiset{o.value} else multiset{}
  }

  lemma RefSound(h: Heap, held: multiset<ObjId>, o: ObjId)
    requires Sound(h, held) && o in h.objs
    ensures Sound(RefStep(h, o), held + multiset{o})
  {
  }

  lemma UnrefSound(h: Heap, held: multiset<ObjId>, o: ObjId)
    requires Sound(h, held) && o in held
    ensures Live(h, o) && Sound(UnrefStep(h, o), held - multiset{o})
  {
    assert o in h.objs;
  }

  lemma RegisterSound(h: Heap, held: multiset<ObjId>, path: string)
    requires Sound(h, held) && path !in h.cache
    ensures Sound(RegisterStep(h, path), held + multiset{h.nextId})
  {
    assert h.nextId !in h.objs;
  }

  /** Registering a second object under a live path leaves the first one out of the cache. */
  lemma CreateUnsound(h: Heap, held: multiset<ObjId>, held': multiset<ObjId>, path: string, c: Creation)
    requires Sound(h, held) && path in h.cache && c != Refused
    ensures !Sound(CreateStep(h, path, c), held')
  {
    var o, g := h.cache[path], CreateStep(h, path, c);
    assert o != h.nextId && o in g.objs && g.objs[o].path == path;
    assert path !in g.cache || g.cache[path] != o;
  }

  lemma CreateSound(h: Heap, held: multiset<ObjId>, path: string, c: Creation)
    requires Sound(h, held) && (path !in h.cache || c == Refused)
    ensures Sound(CreateStep(h, path, c), held + Ids(CreatedId(h, c)))
  {
    match c
    case Refused => assert held + multiset{} == held;
    case Created => RegisterSound(h, held, path);
    case Broken =>
      RegisterSound(h, held, path);
      UnrefSound(RegisterStep(h, path), held + multiset{h.nextId}, h.nextId);
      assert held + multiset{h.nextId} - multiset{h.nextId} == held + multiset{};
  }

  /** Creating keeps the cache faithful iff the path was not in it, or nothing was constructed. */
  lemma CreateSoundIff(h: Heap, held: multiset<ObjId>, path: string, c: Creation)
    requires Sound(h, held)
    ensures Sound(CreateStep(h, path, c), held + Ids(CreatedId(h, c))) <==> path !in h.cache || c == Refused
  {
    if path !in h.cache || c == Refused {
      CreateSound(h, held, path, c);
    } else {
      CreateUnsound(h, held, held + Ids(CreatedId(h, c)), path, c);
    }
  }

  /** Asking the cache first is always right. */
  lemma ObtainSound(h: Heap, held: multiset<ObjId>, e: Entry)
    requires Sound(h, held)
    ensures Sound(ObtainStep(h, e), held + Ids(ObtainedId(h, e)))
  {
    if e.path in h.cache {
      RefSound(h, held, h.cache[e.path]);
    } else {
      CreateSoundIff(h, held, e.path, e.creation);
    }
  }

  /** Objects that were live at first keep their paths. */
  ghost predicate Keeps(h: Heap, g: Heap) {
    forall o | o in h.objs :: o in g.objs && g.objs[o].path == h.objs[o].path
  }

  /** The object obtained has the path; the paths now live are those before and the one obtained. */
  lemma ObtainKeeps(h: Heap, held: multiset<ObjId>, e: Entry)
    requires Sound(h, held)
    ensures var g, id := ObtainStep(h, e), ObtainedId(h, e);
            && Keeps(h, g)
            && (id.Some? ==> id.value in g.objs && g.objs[id.value].path == e.path)
            && (id.Some? <==> e.path in h.cache || e.creation == Created)
            && g.cache.Keys == h.cache.Keys + (if id.Some? then {e.path} else {})
  {
    assert h.nextId !in h.objs;
  }

  // ---------- Arrays ----------

  /** The loop over the demarshalled paths. */
  function FilledHeap(h: Heap, entries: seq<Entry>): Heap
    decreases |entries|
  {
    if entries == [] then h else ObtainStep(FilledHeap(h, entries[..|entries| - 1]), entries[|entries| - 1])
  }

  function FilledList(h: Heap, entries: seq<Entry>): seq<ObjId>
    decreases |entries|
  {
    if entries == [] then []
    else
      var before := entries[..|entries| - 1];
      var id := ObtainedId(FilledHeap(h, before), entries[|entries| - 1]);
      if id.Some? then FilledList(h, before) + [id.value] else FilledList(h, before)
  }

  /** bm_object_array_free */
  function Released(h: Heap, list: seq<ObjId>): Heap
    decreases |list|
  {
    if list == [] then h else UnrefStep(Released(h, list[..|list| - 1]), list[|list| - 1])
  }

  /** g_object_ref for every slot, as bm_object_array_copy does. */
  function Shared(h: Heap, list: seq<ObjId>): Heap
    decreases |list|
  {
    if list == [] then h else RefStep(Shared(h, list[..|list| - 1]), list[|list| - 1])
  }

  function ListOf(dest: Option<seq<ObjId>>): seq<ObjId> {
    if dest.Some? then dest.value else []
  }

  lemma SplitLast(list: seq<ObjId>)
    requires list != []
    ensures multiset(list) == multiset(list[..|list| - 1]) + multiset{list[|list| - 1]}
  {
    assert list == list[..|list| - 1] + [list[|list| - 1]];
  }

  lemma {:induction false} FillSound(h: Heap, held: multiset<ObjId>, entries: seq<Entry>)
    requires Sound(h, held)
    ensures Sound(FilledHeap(h, entries), held + multiset(FilledList(h, entries)))
    decreases |entries|
  {
    if entries == [] {
      assert held + multiset([]) == held;
    } else {
      var before, e := entries[..|entries| - 1], entries[|entries| - 1];
      FillSound(h, held, before);
      var g, list := FilledHeap(h, before), FilledList(h, before);
      ObtainSound(g, held + multiset(list), e);
      assert held + multiset(list) + Ids(ObtainedId(g, e)) == held + multiset(FilledList(h, entries));
    }
  }

  lemma {:induction false} ReleasedSound(h: Heap, held: multiset<ObjId>, list: seq<ObjId>)
    requires Sound(h, held + multiset(list))
    ensures Sound(Released(h, list), held)
    decreases |list|
  {
    if list == [] {
      assert held + multiset([]) == held;
    } else {
      var before, o := list[..|list| - 1], list[|list| - 1];
      SplitLast(list);
      assert held + multiset(list) == held + multiset{o} + multiset(before);
      ReleasedSound(h, held + multiset{o}, before);
      UnrefSound(Released(h, before), held + multiset{o}, o);
      assert held + multiset{o} - multiset{o} == held;
    }
  }

  lemma {:induction false} SharedSound(h: Heap, held: multiset<ObjId>, list: seq<ObjId>)
    requires Sound(h, held) && forall o | o in list :: o in held
    ensures Sound(Shared(h, list), held + multiset(list))
    decreases |list|
  {
    if list == [] {
      assert held + multiset([]) == held;
    } else {
      var before, o := list[..|list| - 1], list[|list| - 1];
      SharedSound(h, held, before);
      SplitLast(list);
      RefSound(Shared(h, before), held + multiset(before), o);
      assert held + multiset(before) + multiset{o} == held + multiset(list);
    }
  }

  /** Copying an array and freeing the copy changes nothing. */
  lemma {:induction false} CopyThenFree(h: Heap, held: multiset<ObjId>, list: seq<ObjId>)
    requires Sound(h, held) && forall o | o in list :: o in held
    ensures Released(Shared(h, list), list) == h
  {
    SharedSound(h, held, list);
    ReleasedSound(Shared(h, list), held, list);
    SharedKeeps(h, list);
    ReleasedKeeps(Shared(h, list), list);
    SameHeap(h, Released(Shared(h, list), list), held);
  }

  lemma {:induction false} SharedKeeps(h: Heap, list: seq<ObjId>)
    ensures Keeps(h, Shared(h, list)) && Shared(h, list).nextId == h.nextId
    decreases |list|
  {
    if list != [] {
      SharedKeeps(h, list[..|list| - 1]);
    }
  }

  lemma {:induction false} ReleasedKeeps(h: Heap, list: seq<ObjId>)
    ensures Keeps(Released(h, list), h) && Released(h, list).nextId == h.nextId
    decreases |list|
  {
    if list != [] {
      ReleasedKeeps(h, list[..|list| - 1]);
    }
  }

  /** References and paths determine the objects and the cache. */
  lemma SameHeap(h: Heap, g: Heap, held: multiset<ObjId>)
    requires Sound(h, held) && Sound(g, held) && h.nextId == g.nextId
    requires forall o | o in h.objs && o in g.objs :: h.objs[o].path == g.objs[o].path
    ensures h == g
  {
    assert h.objs == g.objs by {
      forall o | o in h.objs ensures o in g.objs && g.objs[o] == h.objs[o] {
        assert o in held;
      }
      forall o | o in g.objs ensures o in h.objs {
        assert o in held;
      }
      SameMaps(h.objs, g.objs);
    }
    SameMaps(h.cache, g.cache);
  }

  // ---------- What demarshalling an array gives ----------

  /** The paths that are live beforehand, or whose creation has succeeded when their turn comes. */
  function Answered(live: set<string>, entries: seq<Entry>): seq<string>
    decreases |entries|
  {
    if entries == [] then []
    else
      var e, before := entries[|entries| - 1], Answered(live, entries[..|entries| - 1]);
      if e.path in live || Entry(e.path, Created) in entries then before + [e.path] else before
  }

  ghost predicate HasPaths(h: Heap, list: seq<ObjId>, paths: seq<string>) {
    && |list| == |paths|
    && forall i | 0 <= i < |list| :: list[i] in h.objs && h.objs[list[i]].path == paths[i]
  }

  ghost predicate CachedAfter(h: Heap, g: Heap, entries: seq<Entry>) {
    forall p :: p in g.cache <==> p in h.cache || Entry(p, Created) in entries
  }

  lemma {:induction false} FillPaths(h: Heap, held: multiset<ObjId>, entries: seq<Entry>)
    requires Sound(h, held)
    ensures Keeps(h, FilledHeap(h, entries)) && CachedAfter(h, FilledHeap(h, entries), entries)
    ensures HasPaths(FilledHeap(h, entries), FilledList(h, entries), Answered(h.cache.Keys, entries))
    decreases |entries|
  {
    if entries != [] {
      var before, e := entries[..|entries| - 1], entries[|entries| - 1];
      FillPaths(h, held, before);
      FillSound(h, held, before);
      var g := FilledHeap(h, before);
      ObtainKeeps(g, held + multiset(FilledList(h, before)), e);
      FillPath(h, g, ObtainStep(g, e), ObtainedId(g, e), FilledList(h, before), entries);
    }
  }

  /** One more entry obtained. */
  lemma {:induction false} FillPath(
    h: Heap, g: Heap, g': Heap, id: Option<ObjId>, list: seq<ObjId>, entries: seq<Entry>)
    requires entries != [] && Keeps(h, g) && CachedAfter(h, g, entries[..|entries| - 1])
    requires HasPaths(g, list, Answered(h.cache.Keys, entries[..|entries| - 1]))
    requires var e := entries[|entries| - 1];
             && Keeps(g, g')
             && (id.Some? ==> id.value in g'.objs && g'.objs[id.value].path == e.path)
             && (id.Some? <==> e.path in g.cache || e.creation == Created)
             && g'.cache.Keys == g.cache.Keys + (if id.Some? then {e.path} else {})
    ensures Keeps(h, g') && CachedAfter(h, g', entries)
    ensures HasPaths(g', if id.Some? then list + [id.value] else list, Answered(h.cache.Keys, entries))
  {
    KeepsThrough(h, g, g');
    KeepsPaths(g, g', list, Answered(h.cache.Keys, entries[..|entries| - 1]));
    CachedStep(h, g, g', entries);
    if id.Some? {
      OneMorePath(g', list, Answered(h.cache.Keys, entries[..|entries| - 1]), id.value);
    }
  }

  lemma OneMorePath(h: Heap, list: seq<ObjId>, paths: seq<string>, o: ObjId)
    requires HasPaths(h, list, paths) && o in h.objs
    ensures HasPaths(h, list + [o], paths + [h.objs[o].path])
  {
  }

  lemma CachedStep(h: Heap, g: Heap, g': Heap, entries: seq<Entry>)
    requires entries != [] && CachedAfter(h, g, entries[..|entries| - 1])
    requires var e := entries[|entries| - 1];
             g'.cache.Keys == g.cache.Keys + (if e.path in g.cache || e.creation == Created then {e.path} else {})
    ensures CachedAfter(h, g', entries)
    ensures var e := entries[|entries| - 1];
            e.path in g.cache || e.creation == Created <==> e.path in h.cache || Entry(e.path, Created) in entries
  {
    var before, e := entries[..|entries| - 1], entries[|entries| - 1];
    assert entries == before + [e];
    forall p ensures p in g'.cache <==> p in h.cache || Entry(p, Created) in entries {
      assert Entry(p, Created) in entries <==> Entry(p, Created) in before || e == Entry(p, Created);
      assert p in g'.cache.Keys <==> p in g.cache.Keys || (p == e.path && e.creation == Created);
    }
  }

  lemma KeepsThrough(h: Heap, g: Heap, k: Heap)
    requires Keeps(h, g) && Keeps(g, k)
    ensures Keeps(h, k)
  {
  }

  lemma KeepsPaths(h: Heap, g: Heap, list: seq<ObjId>, paths: seq<string>)
    requires Keeps(h, g) && HasPaths(h, list, paths)
    ensures HasPaths(g, list, paths)
  {
  }

  /** _bm_object_array_demarshal: the new array is built before the old one is released. */
  function DemarshalledHeap(h: Heap, dest: Option<seq<ObjId>>, entries: seq<Entry>): Heap {
    Released(FilledHeap(h, entries), ListOf(dest))
  }

  /** Slots hold the objects that were live with their paths, if any were. */
  ghost predicate KeepsObjects(h: Heap, g: Heap, list: seq<ObjId>, entries: seq<Entry>) {
    && (forall o | o in list :: o in g.objs && (g.objs[o].path in h.cache ==> o == h.cache[g.objs[o].path]))
    && (forall e | e in entries && e.path in h.cache :: h.cache[e.path] in list)
  }

  lemma {:induction false} FillObjects(h: Heap, held: multiset<ObjId>, entries: seq<Entry>)
    requires Sound(h, held)
    ensures KeepsObjects(h, FilledHeap(h, entries), FilledList(h, entries), entries)
    decreases |entries|
  {
    if entries != [] {
      var before, e := entries[..|entries| - 1], entries[|entries| - 1];
      var g := FilledHeap(h, before);
      FillObjects(h, held, before);
      FillSound(h, held, before);
      FillPaths(h, held, before);
      ObjectsStep(h, held, g, held + multiset(FilledList(h, before)), FilledList(h, before), entries);
    }
  }

  lemma ObjectsStep(
    h: Heap, held: multiset<ObjId>, g: Heap, held': multiset<ObjId>, list: seq<ObjId>, entries: seq<Entry>)
    requires Sound(h, held) && Sound(g, held') && Keeps(h, g)
    requires entries != [] && KeepsObjects(h, g, list, entries[..|entries| - 1])
    ensures var e := entries[|entries| - 1];
            var id := ObtainedId(g, e);
            KeepsObjects(h, ObtainStep(g, e), if id.Some? then list + [id.value] else list, entries)
  {
    var before, e := entries[..|entries| - 1], entries[|entries| - 1];
    ObtainKeeps(g, held', e);
    if e.path in h.cache {
      ObtainObject(h, g, held, held', e);
    }
    MoreObjects(h, g, ObtainStep(g, e), list, ObtainedId(g, e), entries);
  }

  lemma MoreObjects(h: Heap, g: Heap, g': Heap, list: seq<ObjId>, id: Option<ObjId>, entries: seq<Entry>)
    requires entries != [] && KeepsObjects(h, g, list, entries[..|entries| - 1]) && Keeps(g, g')
    requires var path := entries[|entries| - 1].path;
             && (path in h.cache ==> id == Some(h.cache[path]))
             && (id.Some? ==> id.value in g'.objs && g'.objs[id.value].path == path)
    ensures KeepsObjects(h, g', if id.Some? then list + [id.value] else list, entries)
  {
    assert entries == entries[..|entries| - 1] + [entries[|entries| - 1]];
  }

  lemma ObtainObject(h: Heap, g: Heap, held: multiset<ObjId>, held': multiset<ObjId>, e: Entry)
    requires Sound(h, held) && Sound(g, held') && Keeps(h, g) && e.path in h.cache
    ensures e.path in g.cache && ObtainedId(g, e) == Some(h.cache[e.path])
  {
  }

  /**
   Whatever else is held: counts and cache stay faithful, the array has the paths that answer, and
   every object that was live and whose path is asked for is the one in the array.
   */
  lemma DemarshalFaithful(h: Heap, dest: Option<seq<ObjId>>, entries: seq<Entry>, others: multiset<ObjId>)
    requires Sound(h, others + multiset(ListOf(dest)))
    ensures var g, list := DemarshalledHeap(h, dest, entries), FilledList(h, entries);
            && Sound(g, others + multiset(list))
            && HasPaths(g, list, Answered(h.cache.Keys, entries))
            && KeepsObjects(h, g, list, entries)
  {
    var held := others + multiset(ListOf(dest));
    var f, g, list := FilledHeap(h, entries), DemarshalledHeap(h, dest, entries), FilledList(h, entries);
    FillSound(h, held, entries);
    FillPaths(h, held, entries);
    FillObjects(h, held, entries);
    assert held + multiset(list) == others + multiset(list) + multiset(ListOf(dest));
    ReleasedSound(f, others + multiset(list), ListOf(dest));
    ReleasedKeeps(f, ListOf(dest));
    HeldAreLive(g, others, list);
    BackPaths(g, f, list, Answered(h.cache.Keys, entries));
    BackObjects(h, g, f, list, entries);
  }

  /** An object in the old array whose path is asked for again is in the new one, and still live. */
  lemma DemarshalKeepsShared(
    h: Heap, dest: seq<ObjId>, entries: seq<Entry>, others: multiset<ObjId>, o: ObjId, e: Entry)
    requires Sound(h, others + multiset(dest)) && o in dest && o in h.objs && e in entries && e.path == h.objs[o].path
    ensures o in FilledList(h, entries) && o in DemarshalledHeap(h, Some(dest), entries).objs
  {
    DemarshalFaithful(h, Some(dest), entries, others);
  }

  lemma HeldAreLive(g: Heap, others: multiset<ObjId>, list: seq<ObjId>)
    requires Sound(g, others + multiset(list))
    ensures forall o | o in list :: o in g.objs
  {
    forall o | o in list ensures o in g.objs {
      assert o in others + multiset(list);
    }
  }

  lemma BackPaths(g: Heap, f: Heap, list: seq<ObjId>, paths: seq<string>)
    requires Keeps(g, f) && HasPaths(f, list, paths) && forall o | o in list :: o in g.objs
    ensures HasPaths(g, list, paths)
  {
  }

  lemma BackObjects(h: Heap, g: Heap, f: Heap, list: seq<ObjId>, entries: seq<Entry>)
    requires Keeps(g, f) && KeepsObjects(h, f, list, entries) && forall o | o in list :: o in g.objs
    ensures KeepsObjects(h, g, list, entries)
  {
  }
}
