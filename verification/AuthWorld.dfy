/** The code of the authorization chains (src/bm-manager-auth.c), step by step on its tables. */
module AuthWorld {
  import opened Maps
  import opened AuthHistory
  import opened AuthChain

  class World {
    var chains: map<ChainId, Chain>
    var calls: map<CallId, Call>
    var owned: set<ChainId>
    var nextChain: nat
    var nextCall: nat
    ghost var pending: set<CallId>
    ghost var freed: seq<CallId>
    ghost var history: seq<Record>

    ghost function S(): State
      reads this
    {
      State(chains, calls, owned, nextChain, nextCall, pending, freed, history)
    }

    constructor ()
      ensures S() == RunOf([])
    {
      chains, calls, owned, nextChain, nextCall := map[], map[], {}, 0, 0;
      pending, freed, history := {}, [], [];
    }

    /** _auth_chain_new: NULL, with nothing left allocated, if the caller has no bus name. */
    method NewChain(hasOwner: bool) returns (c: Option<ChainId>)
      modifies this
      ensures hasOwner ==> c == Some(old(nextChain)) && S() == NewStep(old(S()))
      ensures !hasOwner ==> c == None && S() == old(S())
    {
      if !hasOwner {
        return None;
      }
      chains := chains[nextChain := Chain(1, [], map[], None)];
      owned := owned + {nextChain};
      c := Some(nextChain);
      nextChain := nextChain + 1;
    }

    /**
     bm_auth_chain_add_call: the check is started and completes some time later; without a polkit
     subject for the owner there is no call.
     */
    method AddTo(c: ChainId, permission: string, hasSubject: bool) returns (added: bool)
      requires c in chains
      modifies this
      ensures added == hasSubject
      ensures S() == if hasSubject then AddStep(old(S()), c, permission) else old(S())
    {
      if !hasSubject {
        return false;
      }
      added := true;
      var k := nextCall;
      nextCall := nextCall + 1;
      calls := calls[k := Call(c, permission, false)];
      chains := chains[c := chains[c].(calls := chains[c].calls + [k])];
      pending := pending + {k};
      history := history + [Added(c, k, permission)];
    }

    /** bm_auth_chain_set_data */
    method StoreData(c: ChainId, tag: string, value: nat)
      requires c in chains
      modifies this`chains
      ensures chains == old(chains)[c := old(chains)[c].(data := WithData(old(chains)[c].data, tag, value))]
    {
      var chain := chains[c];
      if value == 0 {
        chains := chains[c := chain.(data := chain.data - {tag})];
      } else {
        chains := chains[c := chain.(data := chain.data[tag := value])];
      }
    }

    /** polkit_call_cancel for every call on a list */
    method CancelAll(list: seq<CallId>)
      requires forall k | k in list :: k in calls
      modifies this`calls
      ensures calls == Disposed(old(calls), list)
    {
      ghost var before := calls;
      var i := 0;
      while i < |list|
        invariant 0 <= i <= |list|
        invariant calls == Disposed(before, list[..i])
      {
        assert list[..i + 1] == list[..i] + [list[i]];
        calls := calls[list[i] := calls[list[i]].(disposed := true)];
        i := i + 1;
      }
      assert list[..i] == list;
    }

    /** bm_auth_chain_unref */
    method Unref(c: ChainId)
      requires c in chains && chains[c].refcount > 0 && ListUsable(chains[c].calls, calls.Keys)
      modifies this`chains, this`calls
      ensures S() == UnrefStep(old(S()), c)
    {
      ghost var before := chains;
      chains := chains[c := chains[c].(refcount := chains[c].refcount - 1)];
      if chains[c].refcount > 0 {
        return;
      }
      CancelAll(chains[c].calls);
      chains := chains - {c};
      assert chains == before - {c};
    }

    /** The owner's last act on a chain. */
    method DropChain(c: ChainId)
      requires c in owned && c in chains && chains[c].refcount > 0 && ListUsable(chains[c].calls, calls.Keys)
      modifies this
      ensures S() == DropStep(old(S()), c)
    {
      owned := owned - {c};
      history := history + [Dropped(c)];
      Unref(c);
    }

    method SetByOwner(c: ChainId, tag: string, value: nat)
      requires c in chains
      modifies this
      ensures S() == SetStep(old(S()), c, tag, value)
    {
      StoreData(c, tag, value);
      history := history + [DataSet(c, tag, value)];
    }

    /** Something an owner does; on a chain that is not its any more, nothing. */
    method Act(a: Action)
      requires Usable(S())
      modifies this
      ensures S() == ActionStep(old(S()), a)
    {
      match a
      case New => var c := NewChain(true);
      case AddCall(c, p) => if c in owned { var added := AddTo(c, p, true); }
      case SetData(c, tag, v) => if c in owned { SetByOwner(c, tag, v); }
      case Drop(c) => if c in owned { DropChain(c); }
    }

    /** The done callback: any sequence of actions. */
    method RunCallback(script: seq<Action>)
      requires ScriptUsable(S(), script)
      modifies this
      ensures S() == ScriptStep(old(S()), script)
    {
      ghost var before := S();
      var i := 0;
      while i < |script|
        invariant 0 <= i <= |script|
        invariant S() == ScriptStep(before, script[..i])
      {
        assert Usable(ScriptStep(before, script[..i]));
        assert script[..i + 1][..i] == script[..i];
        Act(script[i]);
        i := i + 1;
      }
      assert script[..i] == script;
    }

    /** A reference is held while the done callback runs. */
    method RunDone(c: ChainId, script: seq<Action>)
      requires CheckUsable(S(), c, script) && chains[c].calls == []
      modifies this
      ensures S() == DoneStep(old(S()), c, script)
    {
      ghost var before := S();
      history := history + [Fired(c, chains[c].error, chains[c].data)];
      chains := chains[c := chains[c].(refcount := chains[c].refcount + 1)];
      assert S() == FireStep(before, c);
      RunCallback(script);
      assert script[..|script|] == script;
      assert Usable(S());
      Unref(c);
    }

    /** bm_auth_chain_check_done */
    method CheckDone(c: ChainId, script: seq<Action>)
      requires CheckUsable(S(), c, script)
      modifies this
      ensures S() == if old(chains)[c].calls == [] then DoneStep(old(S()), c, script) else old(S())
    {
      if |chains[c].calls| == 0 {
        RunDone(c, script);
      }
    }

    /** pk_call_cb: the completion of a call that is pending. */
    method Complete(k: CallId, o: Outcome, script: seq<Action>)
      requires CompleteUsable(S(), k, o, script)
      modifies this
      ensures S() == CompleteStep(old(S()), k, o, script)
    {
      if calls[k].disposed {
        pending := pending - {k};
        Free(k);
        return;
      }
      var c := Take(k, o);
      CheckDone(c, script);
      Free(k);
    }

    /** The call leaves its chain's list, and its result is stored. */
    method Take(k: CallId, o: Outcome) returns (c: ChainId)
      requires k in calls && calls[k].chain in chains
      modifies this
      ensures c == old(calls)[k].chain && S() == StartStep(old(S()), k, o)
    {
      c := calls[k].chain;
      var permission := calls[k].permission;
      pending := pending - {k};
      history := history + [Completed(c, k, permission, o)];
      chains := chains[c := chains[c].(calls := RemoveFirst(chains[c].calls, k))];
      if o.Failed? {
        if chains[c].error.None? {
          chains := chains[c := chains[c].(error := Some(o.error))];
        }
      } else {
        // default_call_func stores the result of a check without error
        StoreData(c, permission, CallResult(o));
      }
    }

    /** polkit_call_free */
    method Free(k: CallId)
      modifies this`calls, this`freed
      ensures S() == FreeStep(old(S()), k)
    {
      calls := calls - {k};
      freed := freed + [k];
    }
  }

  /** One event; a completion comes only for a call whose check has been started and is still to complete. */
  method Handle(w: World, e: Event)
    requires Usable(w.S()) && w.pending == w.calls.Keys
    requires e.Completes? && e.call in w.pending ==> CompleteUsable(w.S(), e.call, e.outcome, e.script)
    modifies w
    ensures w.S() == EventStep(old(w.S()), e)
  {
    match e
    case Acts(a) => w.Act(a);
    case Completes(k, o, script) =>
      if k in w.calls {
        w.Complete(k, o, script);
      }
  }

  /** Any sequence of events: owners act, and pending calls complete. */
  method Run(events: seq<Event>) returns (w: World)
    ensures fresh(w) && w.S() == RunOf(events)
  {
    w := new World();
    var i := 0;
    while i < |events|
      invariant 0 <= i <= |events| && fresh(w)
      invariant w.S() == RunOf(events[..i])
    {
      RunUsable(events[..i]);
      assert events[..i + 1][..i] == events[..i];
      Handle(w, events[i]);
      i := i + 1;
    }
    assert events[..i] == events;
  }
}
