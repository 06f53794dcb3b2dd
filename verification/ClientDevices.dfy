/**
 The client's device array, kept up to date by the daemon's DeviceAdded and DeviceRemoved signals
 (libbm-glib/bm-client.c).
 */
module ClientDevices {
  import opened Maps
  import opened ObjectCache

  /** The daemon's answer to GetDevices, or an error. */
  type Answer = Option<seq<Entry>>

  /** What the rest of the process does: references to live objects, objects of its own, and the array. */
  datatype Use = Take(o: ObjId) | Give(o: ObjId) | Get(entry: Entry) | Fetch(answer: Answer)

  /** The client's own signals. */
  datatype Signal = DeviceAdded(path: string) | DeviceRemoved(path: string)

  /**
   The objects, the device array if it has been fetched, the references that others hold, those
   that nobody holds any more, and the signals emitted. An `answer` is what the daemon would answer
   if the array were fetched now.
   */
  datatype State = State(
    heap: Heap, devices: Option<seq<ObjId>>, others: multiset<ObjId>, leaked: multiset<ObjId>, log: seq<Signal>)

  /** All references but those of the array. */
  function Outside(s: State): multiset<ObjId> {
    s.others + s.leaked
  }

  ghost predicate Inv(s: State) {
    Sound(s.heap, Outside(s) + multiset(ListOf(s.devices)))
  }

  function PathOf(h: Heap, o: ObjId): string {
    if o in h.objs then h.objs[o].path else ""
  }

  function Paths(h: Heap, list: seq<ObjId>): seq<string> {
    seq(|list|, i requires 0 <= i < |list| => PathOf(h, list[i]))
  }

  function UseStep(s: State, u: Use): State {
    match u
    case Take(o) => if o in s.heap.objs then s.(heap := RefStep(s.heap, o), others := s.others + multiset{o}) else s
    case Give(o) => if o in s.others then s.(heap := UnrefStep(s.heap, o), others := s.others - multiset{o}) else s
    case Get(e) => s.(heap := ObtainStep(s.heap, e), others := s.others + Ids(ObtainedId(s.heap, e)))
    case Fetch(answer) => FetchStep(s, answer)
  }

  /** What the handlers of a signal do. */
  function UsesStep(s: State, uses: seq<Use>): State
    decreases |uses|
  {
    if uses == [] then s else UseStep(UsesStep(s, uses[..|uses| - 1]), uses[|uses| - 1])
  }

  /** bm_client_get_devices */
  function FetchStep(s: State, answer: Answer): State {
    if s.devices.Some? || answer.None? then s
    else s.(heap := DemarshalledHeap(s.heap, None, answer.value), devices := Some(FilledList(s.heap, answer.value)))
  }

  /** The first slot with the path. */
  function Find(paths: seq<string>, path: string): (i: nat)
    ensures i <= |paths|
    ensures forall j | 0 <= j < i :: paths[j] != path
    ensures i < |paths| ==> paths[i] == path
  {
    if paths == [] || paths[0] == path then 0 else 1 + Find(paths[1..], path)
  }

  function Emit(s: State, signal: Signal, handlers: seq<Use>): State {
    UsesStep(s.(log := s.log + [signal]), handlers)
  }

  /** The device obtained goes into the array; without an array, its reference is nobody's. */
  function AppendStep(s: State, e: Entry): State {
    var id := ObtainedId(s.heap, e);
    var s' := s.(heap := ObtainStep(s.heap, e));
    if id.None? then s'
    else if s.devices.Some? then s'.(devices := Some(s.devices.value + [id.value]))
    else s'.(leaked := s.leaked + multiset{id.value})
  }

  /** client_device_added_proxy */
  function AddedStep(s: State, e: Entry, answer: Answer, handlers: seq<Use>): State {
    var fetched := FetchStep(s, answer);
    var list := ListOf(fetched.devices);
    if Find(Paths(fetched.heap, list), e.path) < |list| then Emit(fetched, DeviceAdded(e.path), handlers)
    else
      var appended := AppendStep(fetched, e);
      if ObtainedId(fetched.heap, e).Some? then Emit(appended, DeviceAdded(e.path), handlers) else appended
  }

  /** g_ptr_array_remove */
  function Without(list: seq<ObjId>, o: ObjId): seq<ObjId> {
    if list == [] then [] else if list[0] == o then list[1..] else [list[0]] + Without(list[1..], o)
  }

  function DetachStep(s: State, o: ObjId): State {
    s.(heap := UnrefStep(s.heap, o), devices := Some(Without(ListOf(s.devices), o)))
  }

  /** client_device_removed_proxy */
  function RemovedStep(s: State, path: string, answer: Answer, handlers: seq<Use>): State {
    var fetched := FetchStep(s, answer);
    var list := ListOf(fetched.devices);
    var i := Find(Paths(fetched.heap, list), path);
    if i < |list| then DetachStep(Emit(fetched, DeviceRemoved(path), handlers), list[i]) else fetched
  }

  datatype Event =
    | Added(entry: Entry, answer: Answer, handlers: seq<Use>)
    | Removed(path: string, answer: Answer, handlers: seq<Use>)
    | Fetched(answer: Answer)
    | Used(use: Use)

  function EventStep(s: State, e: Event): State {
    match e
    case Added(entry, answer, handlers) => AddedStep(s, entry, answer, handlers)
    case Removed(path, answer, handlers) => RemovedStep(s, path, answer, handlers)
    case Fetched(answer) => FetchStep(s, answer)
    case Used(u) => UseStep(s, u)
  }

  function RunFrom(s: State, events: seq<Event>): State
    decreases |events|
  {
    if events == [] then s else EventStep(RunFrom(s, events[..|events| - 1]), events[|events| - 1])
  }

  // ---------- Every step keeps the invariant ----------

  lemma TakeInv(s: State, o: ObjId)
    requires Inv(s) && o in s.heap.objs
    ensures Inv(UseStep(s, Take(o)))
  {
    var list := multiset(ListOf(s.devices));
    RefSound(s.heap, Outside(s) + list, o);
    assert Outside(s) + list + multiset{o} == s.others + multiset{o} + s.leaked + list;
  }

  lemma GiveInv(s: State, o: ObjId)
    requires Inv(s) && o in s.others
    ensures Inv(UseStep(s, Give(o)))
  {
    var list := multiset(ListOf(s.devices));
    UnrefSound(s.heap, Outside(s) + list, o);
    assert Outside(s) + list - multiset{o} == s.others - multiset{o} + s.leaked + list;
  }

  lemma GetInv(s: State, e: Entry)
    requires Inv(s)
    ensures Inv(UseStep(s, Get(e)))
  {
    var list, ids := multiset(ListOf(s.devices)), Ids(ObtainedId(s.heap, e));
    ObtainSound(s.heap, Outside(s) + list, e);
    assert Outside(s) + list + ids == s.others + ids + s.leaked + list;
  }

  lemma FetchInv(s: State, answer: Answer)
    requires Inv(s)
    ensures Inv(FetchStep(s, answer))
  {
    if s.devices.None? && answer.Some? {
      DemarshalFaithful(s.heap, None, answer.value, Outside(s));
    }
  }

  /** The array that is there is not replaced, nothing is announced, and nothing is leaked. */
  ghost predicate Quiet(s: State, t: State) {
    (s.devices.Some? ==> t.devices == s.devices) && t.log == s.log && t.leaked == s.leaked
  }

  lemma {:induction false} UseInv(s: State, u: Use)
    requires Inv(s)
    ensures Inv(UseStep(s, u)) && Quiet(s, UseStep(s, u))
  {
    match u
    case Take(o) => if o in s.heap.objs { TakeInv(s, o); }
    case Give(o) => if o in s.others { GiveInv(s, o); }
    case Get(e) => GetInv(s, e);
    case Fetch(answer) => FetchInv(s, answer);
  }

  lemma {:induction false} UsesInv(s: State, uses: seq<Use>)
    requires Inv(s)
    ensures Inv(UsesStep(s, uses)) && Quiet(s, UsesStep(s, uses))
    decreases |uses|
  {
    if uses != [] {
      UsesInv(s, uses[..|uses| - 1]);
      UseInv(UsesStep(s, uses[..|uses| - 1]), uses[|uses| - 1]);
    }
  }

  lemma AppendInv(s: State, e: Entry)
    requires Inv(s)
    ensures Inv(AppendStep(s, e))
  {
    var list, id := ListOf(s.devices), ObtainedId(s.heap, e);
    var held := Outside(s) + multiset(list);
    ObtainSound(s.heap, held, e);
    if id.None? {
      assert held + multiset{} == held;
    } else if s.devices.Some? {
      assert held + multiset{id.value} == Outside(s) + multiset(list + [id.value]);
    } else {
      assert held + multiset{id.value} == s.others + (s.leaked + multiset{id.value}) + multiset(list);
    }
  }

  lemma {:induction false} WithoutOne(list: seq<ObjId>, o: ObjId)
    requires o in list
    ensures multiset(Without(list, o)) == multiset(list) - multiset{o}
  {
    assert list == [list[0]] + list[1..];
    if list[0] != o {
      WithoutOne(list[1..], o);
    }
  }

  lemma DetachInv(s: State, o: ObjId)
    requires Inv(s) && o in ListOf(s.devices)
    ensures Live(s.heap, o) && Inv(DetachStep(s, o))
  {
    var list := ListOf(s.devices);
    WithoutOne(list, o);
    UnrefSound(s.heap, Outside(s) + multiset(list), o);
    assert Outside(s) + multiset(list) - multiset{o} == Outside(s) + multiset(Without(list, o));
  }

  lemma EmitInv(s: State, signal: Signal, handlers: seq<Use>)
    requires Inv(s)
    ensures Inv(Emit(s, signal, handlers)) && Quiet(s.(log := s.log + [signal]), Emit(s, signal, handlers))
  {
    UsesInv(s.(log := s.log + [signal]), handlers);
  }

  lemma AddedInv(s: State, e: Entry, answer: Answer, handlers: seq<Use>)
    requires Inv(s)
    ensures Inv(AddedStep(s, e, answer, handlers))
  {
    FetchInv(s, answer);
    var fetched := FetchStep(s, answer);
    EmitInv(fetched, DeviceAdded(e.path), handlers);
    AppendInv(fetched, e);
    EmitInv(AppendStep(fetched, e), DeviceAdded(e.path), handlers);
  }

  lemma RemovedInv(s: State, path: string, answer: Answer, handlers: seq<Use>)
    requires Inv(s)
    ensures Inv(RemovedStep(s, path, answer, handlers))
  {
    FetchInv(s, answer);
    var fetched := FetchStep(s, answer);
    var list := ListOf(fetched.devices);
    var i := Find(Paths(fetched.heap, list), path);
    EmitInv(fetched, DeviceRemoved(path), handlers);
    if i < |list| {
      DetachInv(Emit(fetched, DeviceRemoved(path), handlers), list[i]);
    }
  }

  /** In every run, counts and cache stay faithful, whatever creators, handlers and daemon do. */
  lemma {:induction false} RunInv(s: State, events: seq<Event>)
    requires Inv(s)
    ensures Inv(RunFrom(s, events))
    decreases |events|
  {
    if events != [] {
      var before, e := RunFrom(s, events[..|events| - 1]), events[|events| - 1];
      RunInv(s, events[..|events| - 1]);
      match e
      case Added(entry, answer, handlers) => AddedInv(before, entry, answer, handlers);
      case Removed(path, answer, handlers) => RemovedInv(before, path, answer, handlers);
      case Fetched(answer) => FetchInv(before, answer);
      case Used(u) => UseInv(before, u);
    }
  }

  // ---------- What a listener to the signals knows ----------

  /** An array of paths kept from the signals alone. */
  function Mirrored(paths: seq<string>, signal: Signal): seq<string> {
    var i := Find(paths, signal.path);
    match signal
    case DeviceAdded(p) => if i < |paths| then paths else paths + [p]
    case DeviceRemoved(p) => if i < |paths| then paths[..i] + paths[i + 1..] else paths
  }

  function Mirror(paths: seq<string>, log: seq<Signal>): seq<string>
    decreases |log|
  {
    if log == [] then paths else Mirrored(Mirror(paths, log[..|log| - 1]), log[|log| - 1])
  }

  function DevicePaths(s: State): seq<string> {
    Paths(s.heap, ListOf(s.devices))
  }

  /** Objects live before and after keep their paths. */
  ghost predicate Agree(h: Heap, g: Heap) {
    forall o | o in h.objs && o in g.objs :: h.objs[o].path == g.objs[o].path
  }

  lemma SamePaths(s: State, t: State)
    requires Inv(s) && Inv(t) && Agree(s.heap, t.heap) && s.devices == t.devices
    ensures DevicePaths(s) == DevicePaths(t)
  {
    HeldAreLive(s.heap, Outside(s), ListOf(s.devices));
    HeldAreLive(t.heap, Outside(t), ListOf(t.devices));
  }

  lemma UseAgrees(s: State, u: Use)
    requires Inv(s) && s.devices.Some?
    ensures Agree(s.heap, UseStep(s, u).heap)
  {
    if u.Get? {
      ObtainKeeps(s.heap, Outside(s) + multiset(ListOf(s.devices)), u.entry);
    }
  }

  lemma {:induction false} UsesPaths(s: State, uses: seq<Use>)
    requires Inv(s) && s.devices.Some?
    ensures DevicePaths(UsesStep(s, uses)) == DevicePaths(s)
    decreases |uses|
  {
    if uses != [] {
      var before, u := UsesStep(s, uses[..|uses| - 1]), uses[|uses| - 1];
      UsesPaths(s, uses[..|uses| - 1]);
      UsesInv(s, uses[..|uses| - 1]);
      UseInv(before, u);
      UseAgrees(before, u);
      SamePaths(before, UseStep(before, u));
    }
  }

  lemma EmitPaths(s: State, signal: Signal, handlers: seq<Use>)
    requires Inv(s) && s.devices.Some?
    ensures DevicePaths(Emit(s, signal, handlers)) == DevicePaths(s)
  {
    UsesPaths(s.(log := s.log + [signal]), handlers);
  }

  lemma {:induction false} AppendPaths(s: State, e: Entry)
    requires Inv(s) && s.devices.Some?
    ensures DevicePaths(AppendStep(s, e)) ==
            DevicePaths(s) + if ObtainedId(s.heap, e).Some? then [e.path] else []
    ensures ObtainedId(s.heap, e).Some? <==> e.path in s.heap.cache || e.creation == Created
  {
    HeldAreLive(s.heap, Outside(s), ListOf(s.devices));
    ObtainKeeps(s.heap, Outside(s) + multiset(ListOf(s.devices)), e);
    var g, list, id := ObtainStep(s.heap, e), ListOf(s.devices), ObtainedId(s.heap, e);
    assert Paths(g, list) == Paths(s.heap, list);
    if id.Some? {
      assert Paths(g, list + [id.value]) == Paths(g, list) + [e.path];
    }
  }

  lemma {:induction false} WithoutAt(list: seq<ObjId>, i: nat)
    requires i < |list| && forall j | 0 <= j < i :: list[j] != list[i]
    ensures Without(list, list[i]) == list[..i] + list[i + 1..]
  {
    if i > 0 {
      WithoutAt(list[1..], i - 1);
    }
  }

  lemma {:induction false} WithoutNone(list: seq<ObjId>, o: ObjId)
    requires o !in list
    ensures Without(list, o) == list
  {
    if list != [] {
      WithoutNone(list[1..], o);
    }
  }

  lemma DetachPaths(s: State, i: nat)
    requires Inv(s) && i < |ListOf(s.devices)|
    requires forall j | 0 <= j < i :: DevicePaths(s)[j] != DevicePaths(s)[i]
    ensures DevicePaths(DetachStep(s, ListOf(s.devices)[i])) == DevicePaths(s)[..i] + DevicePaths(s)[i + 1..]
  {
    var list := ListOf(s.devices);
    var t := DetachStep(s, list[i]);
    DetachInv(s, list[i]);
    HeldAreLive(s.heap, Outside(s), list);
    forall j | 0 <= j < i ensures list[j] != list[i] {
      assert DevicePaths(s)[j] != DevicePaths(s)[i];
    }
    WithoutAt(list, i);
    HeldAreLive(t.heap, Outside(t), ListOf(t.devices));
    RestPaths(s.heap, t.heap, list, i);
  }

  lemma RestPaths(h: Heap, g: Heap, list: seq<ObjId>, i: nat)
    requires i < |list| && Agree(h, g) && forall o | o in list :: o in h.objs
    requires forall o | o in list[..i] + list[i + 1..] :: o in g.objs
    ensures Paths(g, list[..i] + list[i + 1..]) == Paths(h, list)[..i] + Paths(h, list)[i + 1..]
  {
    var rest := list[..i] + list[i + 1..];
    forall k | 0 <= k < |rest| ensures PathOf(g, rest[k]) == (Paths(h, list)[..i] + Paths(h, list)[i + 1..])[k] {
      assert rest[k] in rest;
      assert rest[k] == if k < i then list[k] else list[k + 1];
    }
  }

  /** What an event tells the listeners, once the array is there. */
  function Told(s: State, e: Event): seq<Signal> {
    match e
    case Added(entry, _, _) =>
      if entry.path in DevicePaths(s) || entry.path in s.heap.cache || entry.creation == Created
      then [DeviceAdded(entry.path)]
      else []
    case Removed(path, _, _) => if path in DevicePaths(s) then [DeviceRemoved(path)] else []
    case _ => []
  }

  lemma KnownTells(s: State, e: Entry, handlers: seq<Use>)
    requires Inv(s) && s.devices.Some? && e.path in DevicePaths(s)
    ensures var t := Emit(s, DeviceAdded(e.path), handlers);
            t.log == s.log + [DeviceAdded(e.path)] && t.devices.Some?
            && DevicePaths(t) == Mirror(DevicePaths(s), [DeviceAdded(e.path)])
  {
    EmitInv(s, DeviceAdded(e.path), handlers);
    EmitPaths(s, DeviceAdded(e.path), handlers);
    MirrorOne(DevicePaths(s), DeviceAdded(e.path));
  }

  lemma AppendedTells(s: State, e: Entry, handlers: seq<Use>)
    requires Inv(s) && s.devices.Some? && e.path !in DevicePaths(s) && ObtainedId(s.heap, e).Some?
    ensures var t := Emit(AppendStep(s, e), DeviceAdded(e.path), handlers);
            t.log == s.log + [DeviceAdded(e.path)] && t.devices.Some?
            && DevicePaths(t) == Mirror(DevicePaths(s), [DeviceAdded(e.path)])
  {
    AppendInv(s, e);
    AppendPaths(s, e);
    EmitInv(AppendStep(s, e), DeviceAdded(e.path), handlers);
    EmitPaths(AppendStep(s, e), DeviceAdded(e.path), handlers);
    MirrorOne(DevicePaths(s), DeviceAdded(e.path));
  }

  lemma UnansweredTells(s: State, e: Entry)
    requires Inv(s) && s.devices.Some? && ObtainedId(s.heap, e).None?
    ensures var t := AppendStep(s, e);
            t.log == s.log + [] && t.devices.Some? && DevicePaths(t) == Mirror(DevicePaths(s), [])
  {
    AppendPaths(s, e);
  }

  lemma AddedCases(s: State, e: Entry, answer: Answer, handlers: seq<Use>)
    requires s.devices.Some?
    ensures AddedStep(s, e, answer, handlers) ==
            if e.path in DevicePaths(s) then Emit(s, DeviceAdded(e.path), handlers)
            else if ObtainedId(s.heap, e).Some? then Emit(AppendStep(s, e), DeviceAdded(e.path), handlers)
            else AppendStep(s, e)
    ensures Told(s, Added(e, answer, handlers)) ==
            if e.path in DevicePaths(s) || ObtainedId(s.heap, e).Some? then [DeviceAdded(e.path)] else []
  {
    assert |DevicePaths(s)| == |ListOf(s.devices)|;
    MirrorOne(DevicePaths(s), DeviceAdded(e.path));
  }

  lemma AddedTells(s: State, e: Entry, answer: Answer, handlers: seq<Use>)
    requires Inv(s) && s.devices.Some?
    ensures var t, told := AddedStep(s, e, answer, handlers), Told(s, Added(e, answer, handlers));
            t.log == s.log + told && t.devices.Some? && DevicePaths(t) == Mirror(DevicePaths(s), told)
  {
    AddedCases(s, e, answer, handlers);
    if e.path in DevicePaths(s) {
      KnownTells(s, e, handlers);
    } else if ObtainedId(s.heap, e).Some? {
      AppendedTells(s, e, handlers);
    } else {
      UnansweredTells(s, e);
    }
  }

  lemma MirrorOne(paths: seq<string>, signal: Signal)
    ensures Mirror(paths, [signal]) == Mirrored(paths, signal)
    ensures Find(paths, signal.path) < |paths| <==> signal.path in paths
  {
    assert [signal][..0] == [];
  }

  lemma DetachedTells(s: State, path: string, i: nat, handlers: seq<Use>)
    requires Inv(s) && s.devices.Some? && i == Find(DevicePaths(s), path) && i < |ListOf(s.devices)|
    ensures var t := DetachStep(Emit(s, DeviceRemoved(path), handlers), ListOf(s.devices)[i]);
            t.log == s.log + [DeviceRemoved(path)] && t.devices.Some?
            && DevicePaths(t) == Mirror(DevicePaths(s), [DeviceRemoved(path)])
  {
    MirrorOne(DevicePaths(s), DeviceRemoved(path));
    EmitInv(s, DeviceRemoved(path), handlers);
    EmitPaths(s, DeviceRemoved(path), handlers);
    DetachPaths(Emit(s, DeviceRemoved(path), handlers), i);
  }

  lemma RemovedCases(s: State, path: string, answer: Answer, handlers: seq<Use>)
    requires s.devices.Some?
    ensures var i := Find(DevicePaths(s), path);
            && (path in DevicePaths(s) <==> i < |ListOf(s.devices)|)
            && RemovedStep(s, path, answer, handlers) ==
               (if path in DevicePaths(s)
                then DetachStep(Emit(s, DeviceRemoved(path), handlers), ListOf(s.devices)[i])
                else s)
            && Told(s, Removed(path, answer, handlers)) == if path in DevicePaths(s) then [DeviceRemoved(path)] else []
  {
    assert |DevicePaths(s)| == |ListOf(s.devices)|;
    MirrorOne(DevicePaths(s), DeviceRemoved(path));
  }

  lemma RemovedTells(s: State, path: string, answer: Answer, handlers: seq<Use>)
    requires Inv(s) && s.devices.Some?
    ensures var t, told := RemovedStep(s, path, answer, handlers), Told(s, Removed(path, answer, handlers));
            t.log == s.log + told && t.devices.Some? && DevicePaths(t) == Mirror(DevicePaths(s), told)
  {
    RemovedCases(s, path, answer, handlers);
    if path in DevicePaths(s) {
      DetachedTells(s, path, Find(DevicePaths(s), path), handlers);
    } else {
      assert s.log + [] == s.log;
    }
  }

  lemma EventTells(s: State, e: Event)
    requires Inv(s) && s.devices.Some?
    ensures var t, told := EventStep(s, e), Told(s, e);
            t.log == s.log + told && t.devices.Some? && DevicePaths(t) == Mirror(DevicePaths(s), told)
  {
    match e
    case Added(entry, answer, handlers) => AddedTells(s, entry, answer, handlers);
    case Removed(path, answer, handlers) => RemovedTells(s, path, answer, handlers);
    case Fetched(answer) =>
    case Used(u) =>
      UseInv(s, u);
      UseAgrees(s, u);
      SamePaths(s, UseStep(s, u));
  }

  lemma {:induction false} MirrorAppend(paths: seq<string>, log: seq<Signal>, more: seq<Signal>)
    requires |more| <= 1
    ensures Mirror(paths, log + more) == Mirror(Mirror(paths, log), more)
  {
    if more == [] {
      assert log + more == log;
    } else {
      MirrorOne(Mirror(paths, log), more[0]);
      assert (log + more)[..|log|] == log && more == [more[0]];
    }
  }

  /** The signals emitted between two states. */
  function Since(s: State, t: State): seq<Signal> {
    if s.log <= t.log then t.log[|s.log|..] else []
  }

  lemma SinceMore(s: State, t: State, u: State, told: seq<Signal>)
    requires s.log <= t.log && u.log == t.log + told
    ensures s.log <= u.log && Since(s, u) == Since(s, t) + told
  {
  }

  lemma MirrorsMore(s: State, t: State, u: State, told: seq<Signal>)
    requires s.log <= t.log && DevicePaths(t) == Mirror(DevicePaths(s), Since(s, t))
    requires u.log == t.log + told && |told| <= 1 && DevicePaths(u) == Mirror(DevicePaths(t), told)
    ensures s.log <= u.log && DevicePaths(u) == Mirror(DevicePaths(s), Since(s, u))
  {
    SinceMore(s, t, u, told);
    MirrorAppend(DevicePaths(s), Since(s, t), told);
  }

  /** Once the array is there, the signals alone give its paths, in order. */
  lemma {:induction false} RunMirrors(s: State, events: seq<Event>)
    requires Inv(s) && s.devices.Some?
    ensures var t := RunFrom(s, events);
            s.log <= t.log && t.devices.Some? && DevicePaths(t) == Mirror(DevicePaths(s), Since(s, t))
    decreases |events|
  {
    if events != [] {
      var before, e := RunFrom(s, events[..|events| - 1]), events[|events| - 1];
      RunMirrors(s, events[..|events| - 1]);
      RunInv(s, events[..|events| - 1]);
      EventTells(before, e);
      MirrorsMore(s, before, RunFrom(s, events), Told(before, e));
    } else {
      assert Since(s, s) == [];
    }
  }

  ghost predicate Distinct(paths: seq<string>) {
    forall i, j | 0 <= i < j < |paths| :: paths[i] != paths[j]
  }

  /** The latest signal about the path is that it was added, or there is none and it was there. */
  predicate Present(before: bool, log: seq<Signal>, p: string)
    decreases |log|
  {
    if log == [] then before
    else if log[|log| - 1].path == p then log[|log| - 1].DeviceAdded?
    else Present(before, log[..|log| - 1], p)
  }

  lemma MirroredSet(paths: seq<string>, signal: Signal)
    requires Distinct(paths)
    ensures Distinct(Mirrored(paths, signal))
    ensures forall p :: p in Mirrored(paths, signal) <==>
              if p == signal.path then signal.DeviceAdded? else p in paths
  {
    var i := Find(paths, signal.path);
    if signal.DeviceRemoved? && i < |paths| {
      var rest := paths[..i] + paths[i + 1..];
      forall p ensures p in rest <==> p in paths && p != signal.path {
        if p in paths && p != signal.path {
          var k :| 0 <= k < |paths| && paths[k] == p;
          assert rest[if k < i then k else k - 1] == p;
        }
      }
    }
  }

  lemma {:induction false} MirrorSet(paths: seq<string>, log: seq<Signal>)
    requires Distinct(paths)
    ensures Distinct(Mirror(paths, log))
    ensures forall p :: p in Mirror(paths, log) <==> Present(p in paths, log, p)
    decreases |log|
  {
    if log != [] {
      MirrorSet(paths, log[..|log| - 1]);
      MirroredSet(Mirror(paths, log[..|log| - 1]), log[|log| - 1]);
    }
  }

  /**
   From distinct paths, paths stay distinct, the array holds one reference to each of its devices,
   and the paths are the first ones, with those added and without those removed.
   */
  lemma RunKeepsDistinct(s: State, events: seq<Event>)
    requires Inv(s) && s.devices.Some? && Distinct(DevicePaths(s))
    ensures var t := RunFrom(s, events);
            && Distinct(DevicePaths(t))
            && (forall o | o in ListOf(t.devices) :: multiset(ListOf(t.devices))[o] == 1)
            && (forall p :: p in DevicePaths(t) <==> Present(p in DevicePaths(s), Since(s, t), p))
  {
    var t := RunFrom(s, events);
    RunMirrors(s, events);
    MirrorSet(DevicePaths(s), Since(s, t));
    forall i, j | 0 <= i < j < |ListOf(t.devices)| ensures ListOf(t.devices)[i] != ListOf(t.devices)[j] {
      assert DevicePaths(t)[i] != DevicePaths(t)[j];
    }
    OneEach(ListOf(t.devices));
  }

  lemma {:induction false} OneEach(list: seq<ObjId>)
    requires forall i, j | 0 <= i < j < |list| :: list[i] != list[j]
    ensures forall o | o in list :: multiset(list)[o] == 1
    decreases |list|
  {
    if list != [] {
      OneEach(list[..|list| - 1]);
      SplitLast(list);
    }
  }

  /** An entry answers if its path is live, or an object has been created for it by then. */
  predicate Answers(live: set<string>, entries: seq<Entry>, i: nat)
    requires i < |entries|
  {
    entries[i].path in live || Entry(entries[i].path, Created) in entries[..i + 1]
  }

  /** No path that answers is repeated. */
  ghost predicate NoneRepeated(live: set<string>, entries: seq<Entry>) {
    forall i, j | 0 <= i < j < |entries| && Answers(live, entries, i) && Answers(live, entries, j) ::
      entries[i].path != entries[j].path
  }

  ghost predicate AnswersTo(live: set<string>, entries: seq<Entry>, p: string) {
    exists i :: 0 <= i < |entries| && Answers(live, entries, i) && entries[i].path == p
  }

  lemma AnswersBefore(live: set<string>, entries: seq<Entry>, n: nat, i: nat)
    requires i < n <= |entries|
    ensures Answers(live, entries[..n], i) <==> Answers(live, entries, i)
  {
    assert entries[..n][..i + 1] == entries[..i + 1];
  }

  lemma AnswersSnoc(live: set<string>, entries: seq<Entry>, p: string)
    requires entries != []
    ensures var n := |entries| - 1;
            && (AnswersTo(live, entries, p) <==>
                  AnswersTo(live, entries[..n], p) || (Answers(live, entries, n) && entries[n].path == p))
            && (NoneRepeated(live, entries) <==>
                  NoneRepeated(live, entries[..n])
                  && (Answers(live, entries, n) ==> !AnswersTo(live, entries[..n], entries[n].path)))
  {
    var n := |entries| - 1;
    forall i | 0 <= i < n ensures Answers(live, entries[..n], i) <==> Answers(live, entries, i) {
      AnswersBefore(live, entries, n, i);
    }
    if i :| 0 <= i < n && Answers(live, entries[..n], i) && entries[..n][i].path == p {
      assert Answers(live, entries, i) && entries[i].path == p;
    }
    if i :| 0 <= i < |entries| && Answers(live, entries, i) && entries[i].path == p {
      assert i < n ==> Answers(live, entries[..n], i) && entries[..n][i].path == p;
    }
  }

  lemma {:induction false} AnsweredIs(live: set<string>, entries: seq<Entry>)
    ensures forall p :: p in Answered(live, entries) <==> AnswersTo(live, entries, p)
    ensures Distinct(Answered(live, entries)) <==> NoneRepeated(live, entries)
    decreases |entries|
  {
    if entries != [] {
      var n := |entries| - 1;
      AnsweredIs(live, entries[..n]);
      assert entries[..n + 1] == entries;
      forall p ensures p in Answered(live, entries) <==> AnswersTo(live, entries, p) {
        AnswersSnoc(live, entries, p);
      }
      AnswersSnoc(live, entries, entries[n].path);
      if Answers(live, entries, n) {
        DistinctSnoc(Answered(live, entries[..n]), entries[n].path);
      }
    }
  }

  lemma DistinctSnoc(paths: seq<string>, p: string)
    ensures Distinct(paths + [p]) <==> Distinct(paths) && p !in paths
  {
    var more := paths + [p];
    if Distinct(more) {
      assert forall i | 0 <= i < |paths| :: paths[i] == more[i];
      assert forall i | 0 <= i < |paths| :: more[i] != more[|paths|];
    }
  }

  /**
   The fetched array has the daemon's paths that answer, in order: distinct ones iff no path that
   answers is repeated.
   */
  lemma {:induction false} FetchPaths(s: State, entries: seq<Entry>)
    requires Inv(s) && s.devices.None?
    ensures DevicePaths(FetchStep(s, Some(entries))) == Answered(s.heap.cache.Keys, entries)
    ensures Distinct(DevicePaths(FetchStep(s, Some(entries)))) <==> NoneRepeated(s.heap.cache.Keys, entries)
  {
    DemarshalFaithful(s.heap, None, entries, Outside(s));
    AnsweredIs(s.heap.cache.Keys, entries);
  }

  // ---------- Events before the array has been fetched ----------

  /** There is an array once an event has tried to fetch it. */
  ghost predicate ArrayThen(s: State, answer: Answer) {
    s.devices.Some? || answer.Some?
  }

  /** The array's paths then, none if there is no array. */
  ghost function PathsThen(s: State, answer: Answer): seq<string> {
    if s.devices.Some? then DevicePaths(s)
    else if answer.Some? then Answered(s.heap.cache.Keys, answer.value)
    else []
  }

  /** Then the path has a live object. */
  ghost predicate LiveThen(s: State, answer: Answer, path: string) {
    path in s.heap.cache || (s.devices.None? && answer.Some? && Entry(path, Created) in answer.value)
  }

  lemma {:induction false} FetchIs(s: State, answer: Answer)
    requires Inv(s)
    ensures var f := FetchStep(s, answer);
            && (f.devices.Some? <==> ArrayThen(s, answer)) && DevicePaths(f) == PathsThen(s, answer)
            && (forall p :: p in f.heap.cache <==> LiveThen(s, answer, p))
            && f.log == s.log && f.others == s.others && f.leaked == s.leaked
            && (!ArrayThen(s, answer) || s.devices.Some? ==> f == s)
  {
    if s.devices.None? && answer.Some? {
      FetchPaths(s, answer.value);
      FillPaths(s.heap, Outside(s) + multiset(ListOf(s.devices)), answer.value);
    }
  }

  lemma QuietLog(s: State, signal: Signal, handlers: seq<Use>)
    requires Inv(s)
    ensures Emit(s, signal, handlers).log == s.log + [signal]
  {
    EmitInv(s, signal, handlers);
  }

  /**
   Whether or not there is an array yet: a signal that a device was added is passed on just when the
   device is in the array by then, is live, or can be created, and the device is then in the array if
   there is one, at the end if it was not in it.
   */
  lemma {:induction false} AddedAlways(s: State, e: Entry, answer: Answer, handlers: seq<Use>)
    requires Inv(s)
    ensures var t, paths := AddedStep(s, e, answer, handlers), PathsThen(s, answer);
            var obtained := LiveThen(s, answer, e.path) || e.creation == Created;
            && t.log == s.log + (if e.path in paths || obtained then [DeviceAdded(e.path)] else [])
            && (ArrayThen(s, answer) ==>
                  t.devices.Some? && DevicePaths(t) == paths + if e.path !in paths && obtained then [e.path] else [])
  {
    var fetched := FetchStep(s, answer);
    FetchIs(s, answer);
    FetchInv(s, answer);
    if ArrayThen(s, answer) {
      AddedTells(fetched, e, answer, handlers);
      ToldMirror(DevicePaths(fetched), e.path);
      assert AddedStep(s, e, answer, handlers) == AddedStep(fetched, e, answer, handlers);
      assert DevicePaths(fetched) + [] == DevicePaths(fetched);
    } else {
      AppendInv(s, e);
      QuietLog(AppendStep(s, e), DeviceAdded(e.path), handlers);
    }
  }

  lemma ToldMirror(paths: seq<string>, path: string)
    ensures Mirror(paths, [DeviceAdded(path)]) == paths + if path in paths then [] else [path]
    ensures Mirror(paths, []) == paths
  {
    MirrorOne(paths, DeviceAdded(path));
    assert paths + [] == paths;
  }

  /** The paths without the first slot with one of them. */
  ghost predicate FirstTaken(paths: seq<string>, path: string, rest: seq<string>) {
    exists i :: 0 <= i < |paths| && paths[i] == path && path !in paths[..i] && rest == paths[..i] + paths[i + 1..]
  }

  lemma MirrorRemoved(paths: seq<string>, path: string)
    requires path in paths
    ensures FirstTaken(paths, path, Mirror(paths, [DeviceRemoved(path)]))
  {
    var i := Find(paths, path);
    MirrorOne(paths, DeviceRemoved(path));
    assert paths[i] == path && path !in paths[..i];
  }

  /**
   Whether or not there is an array yet: a signal that a device was removed is passed on just when the
   device is in the array by then, and takes it out; without an array nothing happens.
   */
  lemma {:induction false} RemovedAlways(s: State, path: string, answer: Answer, handlers: seq<Use>)
    requires Inv(s)
    ensures var t, paths := RemovedStep(s, path, answer, handlers), PathsThen(s, answer);
            && t.log == s.log + (if path in paths then [DeviceRemoved(path)] else [])
            && (ArrayThen(s, answer) ==> t.devices.Some?)
            && (ArrayThen(s, answer) && path !in paths ==> DevicePaths(t) == paths)
            && (path in paths ==> FirstTaken(paths, path, DevicePaths(t)))
            && (!ArrayThen(s, answer) ==> t == s)
  {
    var fetched, paths := FetchStep(s, answer), PathsThen(s, answer);
    FetchIs(s, answer);
    FetchInv(s, answer);
    if ArrayThen(s, answer) {
      RemovedTells(fetched, path, answer, handlers);
      assert RemovedStep(s, path, answer, handlers) == RemovedStep(fetched, path, answer, handlers);
      if path in paths {
        MirrorRemoved(paths, path);
      }
      assert Mirror(paths, []) == paths;
    } else {
      assert s.log + [] == s.log;
    }
  }

  // ---------- What handlers do ----------

  /** References taken and given back are counted, and an object is gone with its last reference. */
  lemma UseCounts(s: State, o: ObjId)
    requires Inv(s) && o in s.heap.objs
    ensures var t := UseStep(s, Take(o));
            o in t.heap.objs && t.heap.objs[o].refs == s.heap.objs[o].refs + 1 && t.others == s.others + multiset{o}
    ensures o in s.others ==>
              var t := UseStep(s, Give(o));
              && t.others == s.others - multiset{o}
              && (o in t.heap.objs <==> s.heap.objs[o].refs > 1)
              && (o in t.heap.objs ==> t.heap.objs[o].refs == s.heap.objs[o].refs - 1)
    ensures o !in s.others ==> UseStep(s, Give(o)) == s
  {
  }

  /** Asking for an object gives a reference to the live one with the path, or to a new one. */
  lemma UseObtains(s: State, e: Entry)
    requires Inv(s)
    ensures var t := UseStep(s, Get(e));
            && (e.path in s.heap.cache ==> t.others == s.others + multiset{s.heap.cache[e.path]})
            && (e.path !in s.heap.cache && e.creation == Created ==>
                  && e.path in t.heap.cache && t.heap.cache[e.path] !in s.heap.objs
                  && t.others == s.others + multiset{t.heap.cache[e.path]})
            && (e.path !in s.heap.cache && e.creation != Created ==> t.others == s.others)
    ensures forall answer :: UseStep(s, Fetch(answer)).devices.Some? <==> ArrayThen(s, answer)
  {
  }

  lemma {:induction false} FindIs(paths: seq<string>, path: string, i: nat)
    requires i < |paths| && paths[i] == path && path !in paths[..i]
    ensures Find(paths, path) == i
  {
    if i > 0 {
      assert paths[0] == paths[..i][0] && paths[1..][..i - 1] == paths[..i][1..];
      FindIs(paths[1..], path, i - 1);
    }
  }

  /** A handler that takes a reference to a device that is being removed keeps it, out of the array. */
  lemma {:induction false} TakenStays(s: State, path: string, answer: Answer, i: nat)
    requires Inv(s) && s.devices.Some? && i < |DevicePaths(s)| && DevicePaths(s)[i] == path
    requires path !in DevicePaths(s)[..i]
    ensures var o, t := s.devices.value[i], RemovedStep(s, path, answer, [Take(s.devices.value[i])]);
            && o in t.heap.objs && t.heap.objs[o].path == path && path in t.heap.cache
            && t.others == s.others + multiset{o} && t.heap.objs[o].refs == s.heap.objs[o].refs
  {
    var o, emitted := s.devices.value[i], s.(log := s.log + [DeviceRemoved(path)]);
    HeldAreLive(s.heap, Outside(s), s.devices.value);
    FindIs(DevicePaths(s), path, i);
    assert [Take(o)][..0] == [];
    assert UsesStep(emitted, [Take(o)]) == UseStep(emitted, Take(o));
    assert o in s.heap.objs && s.heap.objs[o].path == path;
  }

  // ---------- Leaks ----------

  /**
   A device announced while there is no array, and none can be fetched, leaks its reference, iff an
   object was obtained; nothing else does, whatever the handlers do.
   */
  lemma {:induction false} AddedLeaksIff(s: State, e: Entry, answer: Answer, handlers: seq<Use>)
    requires Inv(s)
    ensures var t := AddedStep(s, e, answer, handlers);
            && t.leaked == s.leaked +
                           (if ArrayThen(s, answer) then multiset{} else Ids(ObtainedId(s.heap, e)))
            && (t.leaked != s.leaked <==>
                  !ArrayThen(s, answer) && (e.path in s.heap.cache || e.creation == Created))
  {
    FetchIs(s, answer);
    FetchInv(s, answer);
    AppendedLeaks(FetchStep(s, answer), e, handlers);
    MoreLeaked(s.leaked, ObtainedId(s.heap, e));
  }

  lemma {:induction false} AppendedLeaks(s: State, e: Entry, handlers: seq<Use>)
    requires Inv(s)
    ensures Emit(s, DeviceAdded(e.path), handlers).leaked == s.leaked
    ensures Emit(AppendStep(s, e), DeviceAdded(e.path), handlers).leaked == AppendStep(s, e).leaked
    ensures AppendStep(s, e).leaked == s.leaked + if s.devices.None? then Ids(ObtainedId(s.heap, e)) else multiset{}
  {
    AppendInv(s, e);
    EmitInv(s, DeviceAdded(e.path), handlers);
    EmitInv(AppendStep(s, e), DeviceAdded(e.path), handlers);
  }

  lemma MoreLeaked(leaked: multiset<ObjId>, id: Option<ObjId>)
    ensures leaked + Ids(id) != leaked <==> id.Some?
  {
    if id.Some? {
      assert (leaked + Ids(id))[id.value] == leaked[id.value] + 1;
    }
  }

  lemma EventKeepsLeaked(s: State, e: Event)
    requires Inv(s) && s.devices.Some?
    ensures EventStep(s, e).leaked == s.leaked
  {
    match e
    case Added(entry, answer, handlers) => AddedLeaksIff(s, entry, answer, handlers);
    case Removed(path, answer, handlers) => EmitInv(s, DeviceRemoved(path), handlers);
    case Fetched(answer) =>
    case Used(u) => UseInv(s, u);
  }

  /** Once the array is there, no run leaks a reference. */
  lemma {:induction false} RunLeaksNothing(s: State, events: seq<Event>)
    requires Inv(s) && s.devices.Some?
    ensures RunFrom(s, events).leaked == s.leaked
    decreases |events|
  {
    if events != [] {
      var before := events[..|events| - 1];
      RunLeaksNothing(s, before);
      RunInv(s, before);
      RunMirrors(s, before);
      EventKeepsLeaked(RunFrom(s, before), events[|events| - 1]);
    }
  }
}
