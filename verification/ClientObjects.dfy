/**
 The object table, the cache and the client's device array as the code changes them in place
 (libbm-glib/bm-object-cache.c, bm-object.c, bm-types.c and bm-client.c).
 */
module ClientObjects {
  import opened Maps
  import opened ObjectCache
  import opened ClientDevices

  class Objects {
    var objs: map<ObjId, Obj>
    var cache: map<string, ObjId>
    var nextId: nat

    ghost function H(): Heap
      reads this
    {
      Heap(objs, cache, nextId)
    }

    constructor ()
      ensures H() == Heap(map[], map[], 0)
    {
      objs, cache, nextId := map[], map[], 0;
    }

    /** g_object_ref */
    method Ref(o: ObjId)
      requires o in objs
      modifies this
      ensures H() == RefStep(old(H()), o)
    {
      objs := objs[o := objs[o].(refs := objs[o].refs + 1)];
    }

    /** g_object_unref: the last reference finalizes the object. */
    method Unref(o: ObjId)
      requires Live(H(), o)
      modifies this
      ensures H() == UnrefStep(old(H()), o)
    {
      var obj := objs[o];
      if obj.refs > 1 {
        objs := objs[o := obj.(refs := obj.refs - 1)];
      } else {
        objs := objs - {o};
        // _bm_object_cache_remove_by_path
        cache := cache - {obj.path};
      }
    }

    /** _bm_object_cache_add, by the object's constructor */
    method Register(path: string) returns (o: ObjId)
      modifies this
      ensures o == old(nextId) && H() == RegisterStep(old(H()), path)
    {
      o := nextId;
      nextId := nextId + 1;
      objs := objs[o := Obj(path, 1)];
      cache := cache[path := o];
    }

    /** A creator: it may refuse, or construct an object that is given up because it is broken. */
    method Create(path: string, c: Creation) returns (o: Option<ObjId>)
      modifies this
      ensures o == CreatedId(old(H()), c) && H() == CreateStep(old(H()), path, c)
    {
      o := None;
      if c != Refused {
        var made := Register(path);
        if c == Broken {
          Unref(made);
        } else {
          o := Some(made);
        }
      }
    }

    /** A reference to the cached object, or to a new one. */
    method Obtain(e: Entry) returns (o: Option<ObjId>)
      requires forall p | p in cache :: cache[p] in objs
      modifies this
      ensures o == ObtainedId(old(H()), e) && H() == ObtainStep(old(H()), e)
    {
      if e.path in cache {
        o := Some(cache[e.path]);
        Ref(o.value);
      } else {
        o := Create(e.path, e.creation);
      }
    }

    /** bm_object_array_copy */
    method CopyArray(src: seq<ObjId>) returns (dest: seq<ObjId>)
      requires forall o | o in src :: o in objs
      modifies this
      ensures dest == src && H() == Shared(old(H()), src)
    {
      ghost var before := H();
      dest := [];
      while |dest| < |src|
        invariant |dest| <= |src| && dest == src[..|dest|]
        invariant H() == Shared(before, dest) && objs.Keys == before.objs.Keys
      {
        var o := src[|dest|];
        Ref(o);
        assert src[..|dest| + 1] == dest + [o];
        assert (dest + [o])[..|dest|] == dest;
        dest := dest + [o];
      }
      assert src[..|dest|] == src;
    }

    /** bm_object_array_free */
    method FreeArray(list: seq<ObjId>, ghost others: multiset<ObjId>)
      requires Sound(H(), others + multiset(list))
      modifies this
      ensures H() == Released(old(H()), list) && Sound(H(), others)
    {
      ghost var before := H();
      var i := 0;
      while i < |list|
        invariant 0 <= i <= |list|
        invariant H() == Released(before, list[..i])
      {
        ReleasedPart(before, others, list, i);
        assert list[..i + 1][..i] == list[..i];
        Unref(list[i]);
        i := i + 1;
      }
      assert list[..i] == list;
      ReleasedSound(before, others, list);
    }

    /** The loop of _bm_object_array_demarshal. */
    method Fill(entries: seq<Entry>, ghost held: multiset<ObjId>) returns (temp: seq<ObjId>)
      requires Sound(H(), held)
      modifies this
      ensures temp == FilledList(old(H()), entries) && H() == FilledHeap(old(H()), entries)
    {
      ghost var before := H();
      temp := [];
      var i := 0;
      while i < |entries|
        invariant 0 <= i <= |entries|
        invariant H() == FilledHeap(before, entries[..i]) && temp == FilledList(before, entries[..i])
      {
        FillSound(before, held, entries[..i]);
        assert entries[..i + 1][..i] == entries[..i];
        var found := Obtain(entries[i]);
        if found.Some? {
          temp := temp + [found.value];
        }
        i := i + 1;
      }
      assert entries[..i] == entries;
    }

    /**
     _bm_object_array_demarshal: `paths` is the array of paths if the value holds one, and `others`
     are the references held outside the array that is replaced.
     */
    method Demarshal(dest: Option<seq<ObjId>>, paths: Option<seq<Entry>>, ghost others: multiset<ObjId>)
      returns (ok: bool, dest': Option<seq<ObjId>>)
      requires Sound(H(), others + multiset(ListOf(dest)))
      modifies this
      ensures ok == paths.Some? && Sound(H(), others + multiset(ListOf(dest')))
      ensures !ok ==> dest' == dest && H() == old(H())
      ensures ok ==> dest'.Some? && dest'.value == FilledList(old(H()), paths.value)
      ensures ok ==> H() == DemarshalledHeap(old(H()), dest, paths.value)
      ensures ok ==> HasPaths(H(), dest'.value, Answered(old(cache).Keys, paths.value))
      ensures ok ==> KeepsObjects(old(H()), H(), dest'.value, paths.value)
    {
      if paths.None? {
        return false, dest;
      }
      DemarshalFaithful(H(), dest, paths.value, others);
      ghost var held := others + multiset(ListOf(dest));
      FillSound(H(), held, paths.value);
      var temp := Fill(paths.value, held);
      if dest.Some? {
        assert held + multiset(temp) == others + multiset(temp) + multiset(dest.value);
        FreeArray(dest.value, others + multiset(temp));
      }
      return true, Some(temp);
    }
  }

  lemma ReleasedPart(h: Heap, others: multiset<ObjId>, list: seq<ObjId>, i: nat)
    requires Sound(h, others + multiset(list)) && i < |list|
    ensures Live(Released(h, list[..i]), list[i])
  {
    assert list == list[..i] + list[i..];
    assert others + multiset(list) == others + multiset(list[i..]) + multiset(list[..i]);
    ReleasedSound(h, others + multiset(list[i..]), list[..i]);
    assert list[i..][0] == list[i];
    assert list[i] in others + multiset(list[i..]);
    UnrefSound(Released(h, list[..i]), others + multiset(list[i..]), list[i]);
  }

  lemma UseLive(s: State)
    requires Inv(s)
    ensures forall o | o in s.others :: Live(s.heap, o)
  {
    forall o | o in s.others ensures Live(s.heap, o) {
      UnrefSound(s.heap, Outside(s) + multiset(ListOf(s.devices)), o);
    }
  }

  class Client {
    const objects: Objects
    var devices: Option<seq<ObjId>>
    var others: multiset<ObjId>
    ghost var leaked: multiset<ObjId>
    ghost var log: seq<Signal>

    ghost function S(): State
      reads this, objects
    {
      State(objects.H(), devices, others, leaked, log)
    }

    constructor (objects: Objects, others: multiset<ObjId>)
      requires Sound(objects.H(), others)
      ensures this.objects == objects && S() == State(objects.H(), None, others, multiset{}, []) && Inv(S())
    {
      this.objects, devices, this.others, leaked, log := objects, None, others, multiset{}, [];
      assert others + multiset{} + multiset([]) == others;
    }

    method TakeRef(o: ObjId)
      requires o in objects.objs
      modifies this, objects
      ensures S() == UseStep(old(S()), Take(o))
    {
      objects.Ref(o);
      others := others + multiset{o};
    }

    method GiveRef(o: ObjId)
      requires o in others && Live(objects.H(), o)
      modifies this, objects
      ensures S() == UseStep(old(S()), Give(o))
    {
      objects.Unref(o);
      others := others - multiset{o};
    }

    method GetObject(e: Entry)
      requires forall p | p in objects.cache :: objects.cache[p] in objects.objs
      modifies this, objects
      ensures S() == UseStep(old(S()), Get(e))
    {
      var o := objects.Obtain(e);
      if o.Some? {
        others := others + multiset{o.value};
      } else {
        assert others + multiset{} == others;
      }
    }

    method UseObject(u: Use)
      requires Inv(S())
      modifies this, objects
      ensures S() == UseStep(old(S()), u)
    {
      UseLive(S());
      match u
      case Take(o) => if o in objects.objs { TakeRef(o); }
      case Give(o) => if o in others { GiveRef(o); }
      case Get(e) => GetObject(e);
      case Fetch(answer) => var list := GetDevices(answer);
    }

    /** g_signal_emit, and what the handlers do. */
    method EmitSignal(signal: Signal, handlers: seq<Use>)
      requires Inv(S())
      modifies this, objects
      ensures S() == Emit(old(S()), signal, handlers)
    {
      log := log + [signal];
      ghost var before := S();
      var i := 0;
      while i < |handlers|
        invariant 0 <= i <= |handlers|
        invariant S() == UsesStep(before, handlers[..i])
      {
        UsesInv(before, handlers[..i]);
        assert handlers[..i + 1][..i] == handlers[..i];
        UseObject(handlers[i]);
        i := i + 1;
      }
      assert handlers[..i] == handlers;
    }

    /** bm_client_get_devices: NULL for an error, but for an empty array too. */
    method GetDevices(answer: Answer) returns (list: Option<seq<ObjId>>)
      requires Inv(S())
      modifies this, objects
      ensures S() == FetchStep(old(S()), answer)
      ensures list == if ListOf(devices) == [] then None else devices
    {
      if devices.None? && answer.Some? {
        var ok, fetched := objects.Demarshal(devices, answer, others + leaked);
        devices := fetched;
      }
      list := if devices.None? || |devices.value| == 0 then None else devices;
    }

    /** bm_client_get_device_by_path */
    method GetDeviceByPath(path: string, answer: Answer) returns (device: Option<ObjId>)
      requires Inv(S())
      modifies this, objects
      ensures S() == FetchStep(old(S()), answer)
      ensures var i := Find(DevicePaths(S()), path);
              device == if i < |ListOf(devices)| then Some(ListOf(devices)[i]) else None
    {
      FetchInv(S(), answer);
      var list := GetDevices(answer);
      HeldAreLive(objects.H(), others + leaked, ListOf(devices));
      if list.None? {
        return None;
      }
      var i := 0;
      while i < |list.value|
        invariant 0 <= i <= |list.value|
        invariant forall j | 0 <= j < i :: DevicePaths(S())[j] != path
      {
        assert DevicePaths(S())[i] == objects.objs[list.value[i]].path;
        if objects.objs[list.value[i]].path == path {
          return Some(list.value[i]);
        }
        i := i + 1;
      }
      device := None;
    }

    /** client_device_added_proxy */
    method OnDeviceAdded(e: Entry, answer: Answer, handlers: seq<Use>)
      requires Inv(S())
      modifies this, objects
      ensures S() == AddedStep(old(S()), e, answer, handlers)
    {
      FetchInv(S(), answer);
      AppendInv(FetchStep(S(), answer), e);
      var device := GetDeviceByPath(e.path, answer);
      if device.None? {
        device := Append(e);
      }
      if device.Some? {
        EmitSignal(DeviceAdded(e.path), handlers);
      }
    }

    /** A device that is not in the array goes into it, if there is an array. */
    method Append(e: Entry) returns (device: Option<ObjId>)
      requires Inv(S())
      modifies this, objects
      ensures S() == AppendStep(old(S()), e) && device == ObtainedId(old(objects.H()), e)
    {
      device := objects.Obtain(e);
      if device.Some? {
        if devices.Some? {
          devices := Some(devices.value + [device.value]);
        } else {
          // g_ptr_array_add refuses NULL, and the reference stays behind
          leaked := leaked + multiset{device.value};
        }
      }
    }

    /** g_ptr_array_remove */
    method RemoveFirst(o: ObjId)
      requires devices.Some?
      modifies this`devices
      ensures devices == Some(Without(old(devices).value, o))
    {
      var list := devices.value;
      var i := 0;
      while i < |list| && list[i] != o
        invariant 0 <= i <= |list| && forall j | 0 <= j < i :: list[j] != o
      {
        i := i + 1;
      }
      if i < |list| {
        WithoutAt(list, i);
        devices := Some(list[..i] + list[i + 1..]);
      } else {
        WithoutNone(list, o);
      }
    }

    /** client_device_removed_proxy: the array's reference keeps the device while handlers run. */
    method OnDeviceRemoved(path: string, answer: Answer, handlers: seq<Use>)
      requires Inv(S())
      modifies this, objects
      ensures S() == RemovedStep(old(S()), path, answer, handlers)
    {
      FetchInv(S(), answer);
      var device := GetDeviceByPath(path, answer);
      if device.Some? {
        EmitInv(S(), DeviceRemoved(path), handlers);
        DetachInv(Emit(S(), DeviceRemoved(path), handlers), device.value);
        EmitSignal(DeviceRemoved(path), handlers);
        Detach(device.value);
      }
    }

    /** A device's slot goes, and then its reference. */
    method Detach(o: ObjId)
      requires devices.Some? && Live(objects.H(), o)
      modifies this, objects
      ensures S() == DetachStep(old(S()), o)
    {
      RemoveFirst(o);
      objects.Unref(o);
    }
  }
}
