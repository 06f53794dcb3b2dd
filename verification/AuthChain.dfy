/**
 The authorization chain protocol (src/bm-manager-auth.c): chains with a reference count and
 outstanding calls, completions that arrive later, cancellation, and a done callback that may
 do anything its owner may do, including dropping the chain.

 Allocated chains and calls are entries of two tables, and freeing one removes its entry. Every
 access to a chain or a call is a lookup that must be defined, so none touches freed memory.
 */
module AuthChain {
  import opened Maps
  import opened AuthHistory

  datatype Chain = Chain(refcount: nat, calls: seq<CallId>, data: map<string, nat>, error: Option<string>)

  datatype Call = Call(chain: ChainId, permission: string, disposed: bool)

  /** What an owner may do. */
  datatype Action =
    | New
    | AddCall(chain: ChainId, permission: string)
    | SetData(chain: ChainId, tag: string, value: nat)
    | Drop(chain: ChainId)

  /** What may happen next: an owner acts, or a pending check completes, running its callback. */
  datatype Event = Acts(action: Action) | Completes(call: CallId, outcome: Outcome, script: seq<Action>)

  /** g_slist_remove */
  function RemoveFirst(s: seq<CallId>, k: CallId): seq<CallId> {
    if s == [] then [] else if s[0] == k then s[1..] else [s[0]] + RemoveFirst(s[1..], k)
  }

  ghost predicate NoDuplicates(s: seq<CallId>) {
    forall i, j | 0 <= i < j < |s| :: s[i] != s[j]
  }

  lemma {:induction false} RemoveFirstFrom(s: seq<CallId>, k: CallId)
    requires NoDuplicates(s) && k in s
    ensures NoDuplicates(RemoveFirst(s, k)) && |RemoveFirst(s, k)| == |s| - 1
    ensures forall x :: x in RemoveFirst(s, k) <==> x in s && x != k
  {
    assert s == [s[0]] + s[1..];
    if s[0] != k {
      RemoveFirstFrom(s[1..], k);
      assert s[0] !in RemoveFirst(s[1..], k);
    } else {
      assert forall x | x in s[1..] :: x != k;
    }
  }

  // ---------- The invariant ----------

  /** A chain is allocated while its owner, or the done callback in progress, holds a reference. */
  ghost predicate Held(chains: map<ChainId, Chain>, owned: set<ChainId>, active: Option<ChainId>) {
    && (forall c :: c in chains <==> c in owned || active == Some(c))
    && (forall c | c in chains ::
          chains[c].refcount == (if c in owned then 1 else 0) + (if active == Some(c) then 1 else 0))
  }

  predicate Listed(calls: map<CallId, Call>, current: Option<CallId>, k: CallId) {
    k in calls && !calls[k].disposed && current != Some(k)
  }

  /**
   A chain lists exactly the calls on it that are allocated and not disposed, other than the one
   being completed.
   */
  ghost predicate Linked(chains: map<ChainId, Chain>, calls: map<CallId, Call>, current: Option<CallId>) {
    && (forall c | c in chains :: NoDuplicates(chains[c].calls))
    && (forall c, k {:trigger k in chains[c].calls} | c in chains && k in chains[c].calls ::
          Listed(calls, current, k) && calls[k].chain == c)
    && (forall k | k in calls && Listed(calls, current, k) ::
          calls[k].chain in chains && k in chains[calls[k].chain].calls)
  }

  /** Every call ever made is either allocated or has been freed, once. */
  ghost predicate FreedOnce(live: set<CallId>, freed: seq<CallId>, nextCall: nat) {
    && NoDuplicates(freed)
    && (forall k | k in live :: k < nextCall && k !in freed)
    && (forall k | k in freed :: k < nextCall)
    && (forall k: nat | k < nextCall :: k in live || k in freed)
  }

  lemma FreedAdd(live: set<CallId>, freed: seq<CallId>, nextCall: nat)
    requires FreedOnce(live, freed, nextCall)
    ensures nextCall !in live && FreedOnce(live + {nextCall}, freed, nextCall + 1)
  {
  }

  lemma FreedMore(live: set<CallId>, freed: seq<CallId>, nextCall: nat, k: CallId)
    requires FreedOnce(live, freed, nextCall) && k in live
    ensures FreedOnce(live - {k}, freed + [k], nextCall)
  {
  }

  /** Allocated chains are in the state that their history says. */
  ghost predicate Recorded(chains: map<ChainId, Chain>, owned: set<ChainId>, nextChain: nat, h: seq<Record>) {
    && (forall r | r in h :: r.chain < nextChain)
    && (forall c | c in owned :: c < nextChain && Dropped(c) !in h)
    && (forall c | c in chains ::
          && chains[c].data == DataOf(h, c) && chains[c].error == ErrorOf(h, c)
          && |chains[c].calls| == Outstanding(h, c))
  }

  ghost predicate Settled(h: seq<Record>) {
    WellFormed(h) && forall c :: !MustFire(h, c)
  }

  // ---------- What each step does to the tables ----------

  lemma NewLinked(chains: map<ChainId, Chain>, calls: map<CallId, Call>, current: Option<CallId>, c: ChainId)
    requires Linked(chains, calls, current) && c !in chains
    ensures Linked(chains[c := Chain(1, [], map[], None)], calls, current)
  {
  }

  lemma AddLinked(
    chains: map<ChainId, Chain>, calls: map<CallId, Call>, current: Option<CallId>, c: ChainId, k: CallId, p: string)
    requires Linked(chains, calls, current) && c in chains && k !in calls && current != Some(k)
    ensures Linked(chains[c := chains[c].(calls := chains[c].calls + [k])], calls[k := Call(c, p, false)], current)
  {
    assert k !in chains[c].calls;
  }

  /** A call starts being completed: it leaves its chain's list. */
  lemma StartLinked(chains: map<ChainId, Chain>, calls: map<CallId, Call>, k: CallId)
    requires Linked(chains, calls, None) && k in calls && !calls[k].disposed
    ensures var c := calls[k].chain;
            && c in chains && k in chains[c].calls
            && |RemoveFirst(chains[c].calls, k)| == |chains[c].calls| - 1
            && Linked(chains[c := chains[c].(calls := RemoveFirst(chains[c].calls, k))], calls, Some(k))
  {
    assert Listed(calls, None, k);
    var c := calls[k].chain;
    RemoveFirstFrom(chains[c].calls, k);
  }

  /** A completed or disposed call is freed. */
  lemma EndLinked(chains: map<ChainId, Chain>, calls: map<CallId, Call>, current: Option<CallId>, k: CallId)
    requires k in calls && Linked(chains, calls, current)
    requires current == Some(k) || (current == None && calls[k].disposed)
    ensures Linked(chains, calls - {k}, None)
  {
  }

  /** A chain is freed, and the calls on its list are disposed. */
  lemma FreeLinked(
    chains: map<ChainId, Chain>, calls: map<CallId, Call>, calls': map<CallId, Call>, current: Option<CallId>,
    c: ChainId)
    requires c in chains && Linked(chains, calls, current) && calls'.Keys == calls.Keys
    requires forall k | k in calls ::
               calls'[k] == if k in chains[c].calls then calls[k].(disposed := true) else calls[k]
    ensures Linked(chains - {c}, calls', current)
  {
  }

  lemma {:induction false} NewReplay(h: seq<Record>, c: ChainId)
    requires forall r | r in h :: r.chain != c
    ensures DataOf(h, c) == map[] && ErrorOf(h, c) == None && Outstanding(h, c) == 0
  {
    if h != [] {
      assert h[|h| - 1] in h;
      NewReplay(h[..|h| - 1], c);
    }
  }

  function Disposed(calls: map<CallId, Call>, list: seq<CallId>): map<CallId, Call> {
    map k | k in calls :: if k in list then calls[k].(disposed := true) else calls[k]
  }

  // ---------- What each step does to the history ----------

  lemma AddRecorded(
    chains: map<ChainId, Chain>, owned: set<ChainId>, nextChain: nat, h: seq<Record>, c: ChainId, k: CallId, p: string)
    requires Recorded(chains, owned, nextChain, h) && Settled(h) && c in owned && c in chains
    ensures var h', chain := h + [Added(c, k, p)], chains[c];
            Settled(h') && Recorded(chains[c := chain.(calls := chain.calls + [k])], owned, nextChain, h')
  {
    Snoc(h, Added(c, k, p));
  }

  lemma SetRecorded(
    chains: map<ChainId, Chain>, owned: set<ChainId>, nextChain: nat, h: seq<Record>, c: ChainId, tag: string, v: nat)
    requires Recorded(chains, owned, nextChain, h) && Settled(h) && c in owned && c in chains
    ensures var h', chain := h + [DataSet(c, tag, v)], chains[c];
            Settled(h') && Recorded(chains[c := chain.(data := WithData(chain.data, tag, v))], owned, nextChain, h')
  {
    Snoc(h, DataSet(c, tag, v));
  }

  lemma DropRecorded(chains: map<ChainId, Chain>, owned: set<ChainId>, nextChain: nat, h: seq<Record>, c: ChainId)
    requires Recorded(chains, owned, nextChain, h) && Settled(h) && c in owned
    ensures Settled(h + [Dropped(c)]) && Recorded(chains, owned - {c}, nextChain, h + [Dropped(c)])
  {
    Snoc(h, Dropped(c));
  }

  /** The chain after a completion: off the list, and with its error or its verdict stored. */
  function CompletedChain(chain: Chain, k: CallId, p: string, o: Outcome): Chain {
    var off := chain.(calls := RemoveFirst(chain.calls, k));
    if o.Failed? then (if off.error.None? then off.(error := Some(o.error)) else off)
    else off.(data := WithData(off.data, p, CallResult(o)))
  }

  lemma CompleteRecorded(
    chains: map<ChainId, Chain>, owned: set<ChainId>, nextChain: nat, h: seq<Record>,
    c: ChainId, k: CallId, p: string, o: Outcome)
    requires Recorded(chains, owned, nextChain, h) && Settled(h) && c in owned && c in chains
    requires k in chains[c].calls && |RemoveFirst(chains[c].calls, k)| == |chains[c].calls| - 1
    ensures var h', chain := h + [Completed(c, k, p, o)], CompletedChain(chains[c], k, p, o);
            && WellFormed(h') && Recorded(chains[c := chain], owned, nextChain, h')
            && (MustFire(h', c) <==> chain.calls == [])
            && forall d | d != c :: !MustFire(h', d)
  {
    Snoc(h, Completed(c, k, p, o));
  }

  lemma FireRecorded(chains: map<ChainId, Chain>, owned: set<ChainId>, nextChain: nat, h: seq<Record>, c: ChainId)
    requires Recorded(chains, owned, nextChain, h) && WellFormed(h) && c in owned && c in chains
    requires MustFire(h, c) && forall d | d != c :: !MustFire(h, d)
    ensures var h' := h + [Fired(c, chains[c].error, chains[c].data)];
            Settled(h') && Recorded(chains, owned, nextChain, h')
  {
    Snoc(h, Fired(c, chains[c].error, chains[c].data));
  }

  // ---------- States and steps ----------

  /**
   The tables, the chains whose owner still holds its reference, the checks that polkit has still
   to complete, the calls freed so far, and all that has happened.
   */
  datatype State = State(
    chains: map<ChainId, Chain>, calls: map<CallId, Call>, owned: set<ChainId>, nextChain: nat, nextCall: nat,
    pending: set<CallId>, freed: seq<CallId>, history: seq<Record>)

  ghost predicate Bounded(s: State) {
    && (forall k | k in s.calls :: s.calls[k].chain < s.nextChain)
    && (forall c | c in s.chains :: c < s.nextChain)
  }

  ghost predicate Pending(s: State, current: Option<CallId>) {
    && s.pending == (if current.Some? then s.calls.Keys - {current.value} else s.calls.Keys)
    && (current.Some? ==> current.value in s.calls)
  }

  /** `active` is the chain whose done callback is running, `current` the call being completed. */
  ghost predicate Inv(s: State, active: Option<ChainId>, current: Option<CallId>) {
    && Held(s.chains, s.owned, active) && Linked(s.chains, s.calls, current)
    && FreedOnce(s.calls.Keys, s.freed, s.nextCall)
    && Recorded(s.chains, s.owned, s.nextChain, s.history) && Settled(s.history)
    && Bounded(s) && Pending(s, current)
  }

  function NewStep(s: State): State {
    s.(chains := s.chains[s.nextChain := Chain(1, [], map[], None)], owned := s.owned + {s.nextChain},
       nextChain := s.nextChain + 1)
  }

  function AddStep(s: State, c: ChainId, p: string): State
    requires c in s.chains
  {
    var k := s.nextCall;
    s.(chains := s.chains[c := s.chains[c].(calls := s.chains[c].calls + [k])],
       calls := s.calls[k := Call(c, p, false)],
       nextCall := k + 1, pending := s.pending + {k}, history := s.history + [Added(c, k, p)])
  }

  function SetStep(s: State, c: ChainId, tag: string, v: nat): State
    requires c in s.chains
  {
    s.(chains := s.chains[c := s.chains[c].(data := WithData(s.chains[c].data, tag, v))],
       history := s.history + [DataSet(c, tag, v)])
  }

  /** bm_auth_chain_unref */
  function UnrefStep(s: State, c: ChainId): State
    requires c in s.chains && s.chains[c].refcount > 0
  {
    if s.chains[c].refcount > 1 then s.(chains := s.chains[c := s.chains[c].(refcount := s.chains[c].refcount - 1)])
    else s.(chains := s.chains - {c}, calls := Disposed(s.calls, s.chains[c].calls))
  }

  function DropStep(s: State, c: ChainId): State
    requires c in s.chains && s.chains[c].refcount > 0
  {
    UnrefStep(s.(owned := s.owned - {c}, history := s.history + [Dropped(c)]), c)
  }

  lemma NewInv(s: State, active: Option<ChainId>, current: Option<CallId>)
    requires Inv(s, active, current)
    ensures Inv(NewStep(s), active, current)
  {
    NewReplay(s.history, s.nextChain);
    NewLinked(s.chains, s.calls, current, s.nextChain);
  }

  lemma HeldSame(
    chains: map<ChainId, Chain>, chains': map<ChainId, Chain>, owned: set<ChainId>, active: Option<ChainId>)
    requires Held(chains, owned, active) && chains'.Keys == chains.Keys
    requires forall c | c in chains :: chains'[c].refcount == chains[c].refcount
    ensures Held(chains', owned, active)
  {
  }

  lemma AddPending(s: State, c: ChainId, p: string, current: Option<CallId>)
    requires Bounded(s) && Pending(s, current) && c in s.chains && FreedOnce(s.calls.Keys, s.freed, s.nextCall)
    ensures Bounded(AddStep(s, c, p)) && Pending(AddStep(s, c, p), current) && current != Some(s.nextCall)
  {
  }

  lemma AddInv(s: State, c: ChainId, p: string, active: Option<ChainId>, current: Option<CallId>)
    requires Inv(s, active, current) && c in s.owned && c in s.chains
    ensures Inv(AddStep(s, c, p), active, current)
  {
    var s' := AddStep(s, c, p);
    HeldSame(s.chains, s'.chains, s.owned, active);
    FreedAdd(s.calls.Keys, s.freed, s.nextCall);
    assert s'.calls.Keys == s.calls.Keys + {s.nextCall};
    AddPending(s, c, p, current);
    AddLinked(s.chains, s.calls, current, c, s.nextCall, p);
    AddRecorded(s.chains, s.owned, s.nextChain, s.history, c, s.nextCall, p);
  }

  lemma {:induction false} SetInv(
    s: State, c: ChainId, tag: string, v: nat, active: Option<ChainId>, current: Option<CallId>)
    requires Inv(s, active, current) && c in s.owned && c in s.chains
    ensures Inv(SetStep(s, c, tag, v), active, current)
  {
    HeldSame(s.chains, SetStep(s, c, tag, v).chains, s.owned, active);
    LinkedSame(s.chains, SetStep(s, c, tag, v).chains, s.calls, current);
    SetRecorded(s.chains, s.owned, s.nextChain, s.history, c, tag, v);
  }

  lemma UnrefLinked(s: State, c: ChainId, current: Option<CallId>)
    requires c in s.chains && s.chains[c].refcount > 0 && Linked(s.chains, s.calls, current)
    ensures Linked(UnrefStep(s, c).chains, UnrefStep(s, c).calls, current)
  {
    if s.chains[c].refcount == 1 {
      FreeLinked(s.chains, s.calls, Disposed(s.calls, s.chains[c].calls), current, c);
    }
  }

  lemma DropHeld(s: State, c: ChainId, active: Option<ChainId>)
    requires c in s.owned && c in s.chains && s.chains[c].refcount > 0 && Held(s.chains, s.owned, active)
    ensures Held(UnrefStep(s, c).chains, s.owned - {c}, active)
  {
  }

  lemma UnrefRecorded(s: State, c: ChainId)
    requires c in s.chains && s.chains[c].refcount > 0 && Recorded(s.chains, s.owned, s.nextChain, s.history)
    ensures Recorded(UnrefStep(s, c).chains, s.owned, s.nextChain, s.history)
  {
  }

  lemma UnrefBounded(s: State, c: ChainId)
    requires c in s.chains && s.chains[c].refcount > 0 && Bounded(s)
    ensures Bounded(UnrefStep(s, c)) && UnrefStep(s, c).calls.Keys == s.calls.Keys
  {
  }

  lemma DropInv(s: State, c: ChainId, active: Option<ChainId>, current: Option<CallId>)
    requires Inv(s, active, current) && c in s.owned && c in s.chains && s.chains[c].refcount > 0
    ensures Inv(DropStep(s, c), active, current)
  {
    var s1 := s.(owned := s.owned - {c}, history := s.history + [Dropped(c)]);
    DropRecorded(s.chains, s.owned, s.nextChain, s.history, c);
    DropHeld(s, c, active);
    UnrefRecorded(s1, c);
    UnrefLinked(s1, c, current);
    UnrefBounded(s1, c);
  }

  // ---------- Completing a call ----------

  /** pk_call_cb up to the check whether the chain is done. */
  function StartStep(s: State, k: CallId, o: Outcome): State
    requires k in s.calls && s.calls[k].chain in s.chains
  {
    var c, p := s.calls[k].chain, s.calls[k].permission;
    s.(chains := s.chains[c := CompletedChain(s.chains[c], k, p, o)], pending := s.pending - {k},
       history := s.history + [Completed(c, k, p, o)])
  }

  /** The done callback is about to run, holding a reference of its own. */
  function FireStep(s: State, c: ChainId): State
    requires c in s.chains
  {
    var chain := s.chains[c];
    s.(chains := s.chains[c := chain.(refcount := chain.refcount + 1)],
       history := s.history + [Fired(c, chain.error, chain.data)])
  }

  /** polkit_call_free */
  function FreeStep(s: State, k: CallId): State {
    s.(calls := s.calls - {k}, freed := s.freed + [k])
  }

  /** What holds between a completion and the check: only the fire may be missing. */
  ghost predicate Started(s: State, c: ChainId, k: CallId) {
    && Held(s.chains, s.owned, None) && Linked(s.chains, s.calls, Some(k))
    && FreedOnce(s.calls.Keys, s.freed, s.nextCall)
    && Recorded(s.chains, s.owned, s.nextChain, s.history) && WellFormed(s.history)
    && Bounded(s) && Pending(s, Some(k))
    && c in s.owned && c in s.chains && (MustFire(s.history, c) <==> s.chains[c].calls == [])
    && forall d | d != c :: !MustFire(s.history, d)
  }

  lemma {:induction false} StartPending(s: State, k: CallId, o: Outcome)
    requires Bounded(s) && Pending(s, None) && k in s.calls && s.calls[k].chain in s.chains
    ensures Bounded(StartStep(s, k, o)) && Pending(StartStep(s, k, o), Some(k))
  {
  }

  lemma {:induction false} StartInv(s: State, k: CallId, o: Outcome)
    requires Inv(s, None, None) && k in s.calls && !s.calls[k].disposed
    ensures s.calls[k].chain in s.chains
    ensures Started(StartStep(s, k, o), s.calls[k].chain, k)
  {
    StartTables(s, k, o);
    CompleteRecorded(s.chains, s.owned, s.nextChain, s.history, s.calls[k].chain, k, s.calls[k].permission, o);
  }

  lemma {:induction false} StartTables(s: State, k: CallId, o: Outcome)
    requires Held(s.chains, s.owned, None) && Linked(s.chains, s.calls, None) && Bounded(s) && Pending(s, None)
    requires k in s.calls && !s.calls[k].disposed
    ensures var c := s.calls[k].chain;
            && c in s.chains && c in s.owned && k in s.chains[c].calls
            && |RemoveFirst(s.chains[c].calls, k)| == |s.chains[c].calls| - 1
    ensures var s' := StartStep(s, k, o);
            && Held(s'.chains, s'.owned, None) && Linked(s'.chains, s'.calls, Some(k))
            && Bounded(s') && Pending(s', Some(k))
  {
    StartLinked(s.chains, s.calls, k);
    StartPending(s, k, o);
    var c, s' := s.calls[k].chain, StartStep(s, k, o);
    HeldSame(s.chains, s'.chains, s.owned, None);
    LinkedSame(s.chains[c := s.chains[c].(calls := RemoveFirst(s.chains[c].calls, k))], s'.chains, s.calls, Some(k));
  }

  lemma LinkedSame(
    chains: map<ChainId, Chain>, chains': map<ChainId, Chain>, calls: map<CallId, Call>, current: Option<CallId>)
    requires Linked(chains, calls, current) && chains'.Keys == chains.Keys
    requires forall c | c in chains :: chains'[c].calls == chains[c].calls
    ensures Linked(chains', calls, current)
  {
  }

  /** A chain with calls outstanding just waits for them. */
  lemma WaitInv(s: State, c: ChainId, k: CallId)
    requires Started(s, c, k) && s.chains[c].calls != []
    ensures Inv(s, None, Some(k))
  {
  }

  lemma FireInv(s: State, c: ChainId, k: CallId)
    requires Started(s, c, k) && s.chains[c].calls == []
    ensures Inv(FireStep(s, c), Some(c), Some(k))
  {
    var s' := FireStep(s, c);
    FireRecorded(s.chains, s.owned, s.nextChain, s.history, c);
    LinkedSame(s.chains, s'.chains, s.calls, Some(k));
  }

  /** The callback's reference is given back; if the owner's is gone too, the chain is freed. */
  lemma ReleaseInv(s: State, c: ChainId, k: CallId)
    requires Inv(s, Some(c), Some(k)) && c in s.chains && s.chains[c].refcount > 0
    ensures Inv(UnrefStep(s, c), None, Some(k))
  {
    UnrefRecorded(s, c);
    UnrefLinked(s, c, Some(k));
    UnrefBounded(s, c);
    ReleaseHeld(s, c);
  }

  lemma ReleaseHeld(s: State, c: ChainId)
    requires c in s.chains && s.chains[c].refcount > 0 && Held(s.chains, s.owned, Some(c))
    ensures Held(UnrefStep(s, c).chains, s.owned, None)
  {
  }

  lemma FreeInv(s: State, current: Option<CallId>, k: CallId)
    requires Inv(s, None, current) && k in s.calls
    requires current == Some(k) || (current == None && s.calls[k].disposed)
    ensures Inv(FreeStep(s, k).(pending := s.pending - {k}), None, None)
  {
    EndLinked(s.chains, s.calls, current, k);
    FreedMore(s.calls.Keys, s.freed, s.nextCall, k);
    assert (s.calls - {k}).Keys == s.calls.Keys - {k};
  }

  // ---------- Whole runs ----------

  /** An owner acts only on chains it holds a reference to. */
  function ActionStep(s: State, a: Action): State {
    match a
    case New => NewStep(s)
    case AddCall(c, p) => if c in s.owned && c in s.chains then AddStep(s, c, p) else s
    case SetData(c, tag, v) => if c in s.owned && c in s.chains then SetStep(s, c, tag, v) else s
    case Drop(c) => if c in s.owned && c in s.chains && s.chains[c].refcount > 0 then DropStep(s, c) else s
  }

  function ScriptStep(s: State, script: seq<Action>): State
    decreases |script|
  {
    if script == [] then s else ActionStep(ScriptStep(s, script[..|script| - 1]), script[|script| - 1])
  }

  /** bm_auth_chain_check_done for a chain without calls, with what the done callback does. */
  function DoneStep(s: State, c: ChainId, script: seq<Action>): State
    requires c in s.chains
  {
    var after := ScriptStep(FireStep(s, c), script);
    if c in after.chains && after.chains[c].refcount > 0 then UnrefStep(after, c) else after
  }

  /** pk_call_cb */
  function CompleteStep(s: State, k: CallId, o: Outcome, script: seq<Action>): State {
    if k !in s.pending || k !in s.calls then s
    else if s.calls[k].disposed then FreeStep(s, k).(pending := s.pending - {k})
    else if s.calls[k].chain !in s.chains then s
    else
      var c := s.calls[k].chain;
      var started := StartStep(s, k, o);
      FreeStep(if started.chains[c].calls == [] then DoneStep(started, c, script) else started, k)
  }

  function EventStep(s: State, e: Event): State {
    match e
    case Acts(a) => ActionStep(s, a)
    case Completes(k, o, script) => CompleteStep(s, k, o, script)
  }

  function RunOf(events: seq<Event>): State
    decreases |events|
  {
    if events == [] then State(map[], map[], {}, 0, 0, {}, [], [])
    else EventStep(RunOf(events[..|events| - 1]), events[|events| - 1])
  }

  lemma ActionInv(s: State, a: Action, active: Option<ChainId>, current: Option<CallId>)
    requires Inv(s, active, current)
    ensures Inv(ActionStep(s, a), active, current)
  {
    match a
    case New => NewInv(s, active, current);
    case AddCall(c, p) => if c in s.owned && c in s.chains { AddInv(s, c, p, active, current); }
    case SetData(c, tag, v) => if c in s.owned && c in s.chains { SetInv(s, c, tag, v, active, current); }
    case Drop(c) => if c in s.owned && c in s.chains && s.chains[c].refcount > 0 { DropInv(s, c, active, current); }
  }

  lemma {:induction false} ScriptInv(s: State, script: seq<Action>, active: Option<ChainId>, current: Option<CallId>)
    requires Inv(s, active, current)
    ensures Inv(ScriptStep(s, script), active, current)
    decreases |script|
  {
    if script != [] {
      ScriptInv(s, script[..|script| - 1], active, current);
      ActionInv(ScriptStep(s, script[..|script| - 1]), script[|script| - 1], active, current);
    }
  }

  /** The chain is still there when the callback returns, even if it has dropped the owner's reference. */
  lemma DoneInv(s: State, c: ChainId, k: CallId, script: seq<Action>)
    requires Started(s, c, k) && s.chains[c].calls == []
    ensures c in ScriptStep(FireStep(s, c), script).chains
    ensures Inv(DoneStep(s, c, script), None, Some(k))
  {
    FireInv(s, c, k);
    ScriptInv(FireStep(s, c), script, Some(c), Some(k));
    ReleaseInv(ScriptStep(FireStep(s, c), script), c, k);
  }

  lemma CompleteInv(s: State, k: CallId, o: Outcome, script: seq<Action>)
    requires Inv(s, None, None)
    ensures Inv(CompleteStep(s, k, o, script), None, None)
  {
    if k in s.pending {
      if s.calls[k].disposed {
        FreeInv(s, None, k);
      } else {
        StartInv(s, k, o);
        var c, started := s.calls[k].chain, StartStep(s, k, o);
        if started.chains[c].calls == [] {
          DoneInv(started, c, k, script);
          FreeCurrent(DoneStep(started, c, script), k);
        } else {
          WaitInv(started, c, k);
          FreeCurrent(started, k);
        }
      }
    }
  }

  lemma FreeCurrent(s: State, k: CallId)
    requires Inv(s, None, Some(k))
    ensures Inv(FreeStep(s, k), None, None)
  {
    FreeInv(s, Some(k), k);
    assert s.pending - {k} == s.pending;
  }

  /** Every run, in every interleaving and with every callback, keeps the invariant. */
  lemma {:induction false} RunInv(events: seq<Event>)
    ensures Inv(RunOf(events), None, None)
    decreases |events|
  {
    if events != [] {
      var s, e := RunOf(events[..|events| - 1]), events[|events| - 1];
      RunInv(events[..|events| - 1]);
      match e
      case Acts(a) => ActionInv(s, a, None, None);
      case Completes(k, o, script) => CompleteInv(s, k, o, script);
    }
  }

  // ---------- What the code may look up ----------

  /** Owned chains are allocated, and so are the calls that allocated chains list. */
  ghost predicate Usable(s: State) {
    && s.owned <= s.chains.Keys
    && (forall c | c in s.chains :: s.chains[c].refcount > 0 && ListUsable(s.chains[c].calls, s.calls.Keys))
  }

  ghost predicate ListUsable(list: seq<CallId>, live: set<CallId>) {
    forall k | k in list :: k in live
  }

  lemma InvUsable(s: State, active: Option<ChainId>, current: Option<CallId>)
    requires Inv(s, active, current)
    ensures Usable(s)
  {
  }

  /** All through a done callback, whatever it does. */
  ghost predicate ScriptUsable(s: State, script: seq<Action>) {
    forall n | 0 <= n <= |script| :: Usable(ScriptStep(s, script[..n]))
  }

  /** pk_call_cb finds its call, its chain, and the chain again after the done callback. */
  ghost predicate CompleteUsable(s: State, k: CallId, o: Outcome, script: seq<Action>) {
    && k in s.pending && k in s.calls
    && (!s.calls[k].disposed ==>
          && s.calls[k].chain in s.chains
          && CheckUsable(StartStep(s, k, o), s.calls[k].chain, script))
  }

  ghost predicate CheckUsable(s: State, c: ChainId, script: seq<Action>) {
    && c in s.chains
    && (s.chains[c].calls == [] ==>
          && ScriptUsable(FireStep(s, c), script) && c in ScriptStep(FireStep(s, c), script).chains)
  }

  lemma StartedUsable(s: State, c: ChainId, k: CallId, script: seq<Action>)
    requires Started(s, c, k)
    ensures CheckUsable(s, c, script)
  {
    if s.chains[c].calls == [] {
      FireInv(s, c, k);
      forall n | 0 <= n <= |script| ensures Usable(ScriptStep(FireStep(s, c), script[..n])) {
        ScriptInv(FireStep(s, c), script[..n], Some(c), Some(k));
        InvUsable(ScriptStep(FireStep(s, c), script[..n]), Some(c), Some(k));
      }
      DoneInv(s, c, k, script);
    }
  }

  lemma InvCompleteUsable(s: State, k: CallId, o: Outcome, script: seq<Action>)
    requires Inv(s, None, None) && k in s.pending
    ensures CompleteUsable(s, k, o, script)
  {
    if !s.calls[k].disposed {
      StartInv(s, k, o);
      StartedUsable(StartStep(s, k, o), s.calls[k].chain, k, script);
    }
  }

  /** After any run, every event that may come next looks up only chains and calls that are allocated. */
  lemma RunUsable(events: seq<Event>)
    ensures Usable(RunOf(events))
    ensures RunOf(events).pending == RunOf(events).calls.Keys
    ensures forall k, o, script {:trigger CompleteUsable(RunOf(events), k, o, script)} ::
              k in RunOf(events).pending ==> CompleteUsable(RunOf(events), k, o, script)
  {
    RunInv(events);
    InvUsable(RunOf(events), None, None);
    forall k, o, script | k in RunOf(events).pending ensures CompleteUsable(RunOf(events), k, o, script) {
      InvCompleteUsable(RunOf(events), k, o, script);
    }
  }

  /** A completion frees its call: the calls that are left are those whose completion is still to come. */
  lemma CompletionFrees(events: seq<Event>, k: CallId, o: Outcome, script: seq<Action>)
    requires k in RunOf(events).pending
    ensures var s, s' := RunOf(events), CompleteStep(RunOf(events), k, o, script);
            k in s.calls && k !in s'.calls && k in s'.freed && k !in s.freed && s'.pending == s'.calls.Keys
  {
    RunInv(events);
    CompleteInv(RunOf(events), k, o, script);
    if !RunOf(events).calls[k].disposed {
      StartInv(RunOf(events), k, o);
    }
  }

  /**
   A chain whose calls are all added before the first completion fires once, as soon as some call
   has completed and none is outstanding.
   */
  lemma RunFires(events: seq<Event>, c: ChainId)
    requires NoLateAdds(RunOf(events).history, c)
    ensures var h := RunOf(events).history;
            Fires(h, c) == if AnyCompleted(h, c) && Outstanding(h, c) == 0 then 1 else 0
  {
    RunInv(events);
    FiresOnce(RunOf(events).history, c);
  }

  /**
   In any run, once no call of a chain is outstanding, its callback has fired iff a call was ever
   added to it, and more than once iff a call was added after a fire.
   */
  lemma RunFiresIff(events: seq<Event>, c: ChainId)
    requires Outstanding(RunOf(events).history, c) == 0
    ensures var h := RunOf(events).history;
            && (Fires(h, c) >= 1 <==> EverAdded(h, c))
            && (Fires(h, c) <= 1 <==> !AddedAfterFire(h, c))
  {
    RunInv(events);
    FiresIff(RunOf(events).history, c);
  }

  /** Nothing is left of the run but a chain that has just this call, and the given history. */
  ghost predicate OneCall(s: State, k: CallId, p: string, h: seq<Record>) {
    && s.chains.Keys == {0} && s.chains[0].refcount == 1 && s.chains[0].calls == [k]
    && s.calls == map[k := Call(0, p, false)] && s.pending == {k} && s.owned == {0}
    && s.nextCall == k + 1 && s.history == h
  }

  lemma FirstCall(p: string)
    ensures OneCall(RunOf([Acts(New), Acts(AddCall(0, p))]), 0, p, [Added(0, 0, p)])
  {
    var e0, e1 := Acts(New), Acts(AddCall(0, p));
    assert [e0, e1][..1] == [e0] && [e0][..0] == [];
    assert RunOf([]) == State(map[], map[], {}, 0, 0, {}, [], []);
    assert RunOf([e0]) == NewStep(RunOf([]));
    assert RunOf([e0, e1]) == AddStep(RunOf([e0]), 0, p);
  }

  /** The only call completes, and the callback does something. */
  lemma OnlyCallDone(s: State, k: CallId, p: string, h: seq<Record>, o: Outcome, script: seq<Action>)
    requires OneCall(s, k, p, h)
    ensures var started := StartStep(s, k, o);
            && CompleteStep(s, k, o, script) == FreeStep(DoneStep(started, 0, script), k)
            && started.chains.Keys == {0} && started.chains[0].refcount == 1 && started.chains[0].calls == []
            && started.calls == s.calls && started.pending == {} && started.history == h + [Completed(0, k, p, o)]
  {
  }

  lemma SecondCall(s: State, p: string, h: seq<Record>, o: Outcome)
    requires OneCall(s, 0, p, h)
    ensures var chain := StartStep(s, 0, o).chains[0];
            OneCall(CompleteStep(s, 0, o, [AddCall(0, p)]), 1, p,
                    h + [Completed(0, 0, p, o), Fired(0, chain.error, chain.data), Added(0, 1, p)])
  {
    OnlyCallDone(s, 0, p, h, o, [AddCall(0, p)]);
    var fired := FireStep(StartStep(s, 0, o), 0);
    assert [AddCall(0, p)][..0] == [];
    assert ScriptStep(fired, [AddCall(0, p)]) == AddStep(fired, 0, p);
  }

  lemma LastCall(s: State, p: string, h: seq<Record>, o: Outcome)
    requires OneCall(s, 1, p, h)
    ensures var chain := StartStep(s, 1, o).chains[0];
            CompleteStep(s, 1, o, []).history == h + [Completed(0, 1, p, o), Fired(0, chain.error, chain.data)]
  {
    OnlyCallDone(s, 1, p, h, o, []);
    assert ScriptStep(FireStep(StartStep(s, 1, o), 0), []) == FireStep(StartStep(s, 1, o), 0);
  }

  lemma RunSnoc(events: seq<Event>, e: Event)
    ensures RunOf(events + [e]) == EventStep(RunOf(events), e)
  {
    assert (events + [e])[..|events|] == events;
  }

  /** A done callback that adds a call makes its chain fire again when that call completes. */
  lemma {:induction false} FiresTwice(p: string, o: Outcome)
    ensures var events := [Acts(New), Acts(AddCall(0, p)), Completes(0, o, [AddCall(0, p)]), Completes(1, o, [])];
            Fires(RunOf(events).history, 0) == 2
  {
    var events := [Acts(New), Acts(AddCall(0, p))];
    var e, f := Completes(0, o, [AddCall(0, p)]), Completes(1, o, []);
    FirstCall(p);
    BothCalls(RunOf(events), p, o);
    RunSnoc(events, e);
    RunSnoc(events + [e], f);
    assert events + [e] + [f] == [Acts(New), Acts(AddCall(0, p)), e, f];
  }

  lemma {:induction false} BothCalls(s: State, p: string, o: Outcome)
    requires OneCall(s, 0, p, [Added(0, 0, p)])
    ensures var t := EventStep(s, Completes(0, o, [AddCall(0, p)]));
            Fires(EventStep(t, Completes(1, o, [])).history, 0) == 2
  {
    var t := CompleteStep(s, 0, o, [AddCall(0, p)]);
    SecondCall(s, p, [Added(0, 0, p)], o);
    LastCall(t, p, t.history, o);
    FiresOf(CompleteStep(t, 1, o, []).history);
  }

  lemma {:induction false} FiresOf(h: seq<Record>)
    requires |h| == 6 && h[2].Fired? && h[5].Fired? && h[2].chain == 0 && h[5].chain == 0
    requires !h[0].Fired? && !h[1].Fired? && !h[3].Fired? && !h[4].Fired?
    ensures Fires(h, 0) == 2
  {
    assert h[..5][..4] == h[..4] && h[..4][..3] == h[..3] && h[..3][..2] == h[..2] && h[..2][..1] == h[..1];
    assert h[..1][..0] == [];
    assert Fires(h[..1], 0) == 0;
    assert Fires(h[..2], 0) == 0;
    assert Fires(h[..3], 0) == 1;
    assert Fires(h[..4], 0) == 1;
    assert Fires(h[..5], 0) == 1;
  }

  /** Whatever the run: a callback is told the latest verdict for each tag, and the first error. */
  lemma RunFireTells(events: seq<Event>, i: nat, tag: string)
    requires i < |RunOf(events).history| && RunOf(events).history[i].Fired?
    ensures var h := RunOf(events).history;
            TellsLatest(h[..i], h[i].chain, tag, h[i].data) && TellsFirst(h[..i], h[i].chain, h[i].error)
  {
    RunInv(events);
    FireTells(RunOf(events).history, i, tag);
  }

  /**
   In any run a callback that fires is given 1 for a permission if polkit's latest answer was that the
   caller is authorized, else 2 if the caller may authenticate, else 3.
   */
  lemma RunFireVerdict(events: seq<Event>, i: nat, j: nat, authorized: bool, challenge: bool)
    requires j < i < |RunOf(events).history| && RunOf(events).history[i].Fired?
    requires var h := RunOf(events).history;
             && h[j].Completed? && h[j].chain == h[i].chain && h[j].outcome == Answer(authorized, challenge)
             && forall n | j < n < i :: !Stores(h[n], h[i].chain, h[j].permission)
    ensures var h := RunOf(events).history;
            var data, p := h[i].data, h[j].permission;
            && p in data
            && (authorized ==> data[p] == 1)
            && (!authorized && challenge ==> data[p] == 2)
            && (!authorized && !challenge ==> data[p] == 3)
  {
    var h := RunOf(events).history;
    RunFireTells(events, i, h[j].permission);
    assert h[..i][j] == h[j] && Stores(h[j], h[i].chain, h[j].permission);
    assert forall n | j < n < i :: h[..i][n] == h[n];
    assert Holds(h[i].data, h[j].permission, h[..i][j]);
  }

  // ---------- What acts and completions do ----------

  /**
   An owner's drop frees its chain, and just the calls on it are disposed; they stay allocated for
   their completions.
   */
  lemma DropFrees(events: seq<Event>, c: ChainId)
    requires c in RunOf(events).owned
    ensures var s, t := RunOf(events), RunOf(events + [Acts(Drop(c))]);
            && t.chains == s.chains - {c} && t.owned == s.owned - {c} && t.history == s.history + [Dropped(c)]
            && t.calls.Keys == s.calls.Keys
            && forall k | k in s.calls :: t.calls[k].disposed <==> s.calls[k].disposed || s.calls[k].chain == c
  {
    var s := RunOf(events);
    RunInv(events);
    RunSnoc(events, Acts(Drop(c)));
    forall k | k in s.calls && !s.calls[k].disposed && s.calls[k].chain == c ensures k in s.chains[c].calls {
      assert Listed(s.calls, None, k);
    }
    forall k | k in s.chains[c].calls ensures k in s.calls && s.calls[k].chain == c {
      assert Listed(s.calls, None, k);
    }
  }

  /** Setting a datum changes that datum of that chain, and NULL removes it. */
  lemma SetDataSets(events: seq<Event>, c: ChainId, tag: string, v: nat)
    requires c in RunOf(events).owned
    ensures var s, t := RunOf(events), RunOf(events + [Acts(SetData(c, tag, v))]);
            && c in s.chains && t.chains.Keys == s.chains.Keys && t.calls == s.calls && t.owned == s.owned
            && (tag in t.chains[c].data <==> v != 0)
            && (v != 0 ==> t.chains[c].data[tag] == v)
            && (forall other | other != tag ::
                  && (other in t.chains[c].data <==> other in s.chains[c].data)
                  && (other in s.chains[c].data ==> t.chains[c].data[other] == s.chains[c].data[other]))
            && (forall d | d in s.chains && d != c :: t.chains[d] == s.chains[d])
  {
    RunInv(events);
    RunSnoc(events, Acts(SetData(c, tag, v)));
  }

  /** A call that is added is pending from then on. */
  lemma AddCallAdds(events: seq<Event>, c: ChainId, p: string)
    requires c in RunOf(events).owned
    ensures var s, t := RunOf(events), RunOf(events + [Acts(AddCall(c, p))]);
            var k := s.nextCall;
            && c in s.chains && c in t.chains && k !in s.calls && k !in s.pending && k !in s.freed
            && t.calls == s.calls[k := Call(c, p, false)] && t.pending == s.pending + {k}
            && t.chains[c].calls == s.chains[c].calls + [k] && t.history == s.history + [Added(c, k, p)]
  {
    RunInv(events);
    RunSnoc(events, Acts(AddCall(c, p)));
  }

  /** A completion is recorded with its outcome, unless the chain has been dropped: then only the call goes. */
  lemma {:induction false} CompletionRecords(events: seq<Event>, k: CallId, o: Outcome, script: seq<Action>)
    requires k in RunOf(events).pending
    ensures var s, t := RunOf(events), RunOf(events + [Completes(k, o, script)]);
            && k in s.calls
            && (s.calls[k].disposed ==>
                  t.history == s.history && t.chains == s.chains && t.calls == s.calls - {k})
            && (!s.calls[k].disposed ==>
                  var h := s.history + [Completed(s.calls[k].chain, k, s.calls[k].permission, o)];
                  |h| <= |t.history| && t.history[..|h|] == h)
  {
    var s := RunOf(events);
    RunInv(events);
    RunSnoc(events, Completes(k, o, script));
    if !s.calls[k].disposed {
      StartInv(s, k, o);
      DoneHistory(StartStep(s, k, o), s.calls[k].chain, script);
    }
  }

  lemma {:induction false} DoneHistory(s: State, c: ChainId, script: seq<Action>)
    requires c in s.chains
    ensures var h := DoneStep(s, c, script).history; |s.history| <= |h| && h[..|s.history|] == s.history
  {
    ScriptHistory(FireStep(s, c), script);
    assert s.history == FireStep(s, c).history[..|s.history|];
  }

  lemma {:induction false} ScriptHistory(s: State, script: seq<Action>)
    ensures var h := ScriptStep(s, script).history; |s.history| <= |h| && h[..|s.history|] == s.history
    decreases |script|
  {
    if script != [] {
      ScriptHistory(s, script[..|script| - 1]);
    }
  }

  /** A chain dropped before its calls have completed never fires, however the run goes on. */
  lemma RunDroppedEarly(events: seq<Event>, c: ChainId, i: nat)
    requires i < |RunOf(events).history| && RunOf(events).history[i] == Dropped(c)
    requires NoLateAdds(RunOf(events).history[..i], c) && Outstanding(RunOf(events).history[..i], c) > 0
    ensures Fires(RunOf(events).history, c) == 0
  {
    RunInv(events);
    DroppedEarlyNeverFires(RunOf(events).history, c, i);
  }

  /**
   When no check is left to complete, every call ever made has been freed exactly once; when no
   owner holds a chain, no chain is allocated.
   */
  lemma NothingLeaks(events: seq<Event>)
    requires RunOf(events).pending == {}
    ensures var s := RunOf(events);
            && NoDuplicates(s.freed) && (forall k: nat :: k in s.freed <==> k < s.nextCall)
            && s.chains.Keys == s.owned
            && forall c | c in s.chains :: s.chains[c].calls == [] && s.chains[c].refcount == 1
  {
    RunInv(events);
    var s := RunOf(events);
    assert s.calls.Keys == {};
    AllFreed(s.calls.Keys, s.freed, s.nextCall);
    OnlyOwned(s.chains, s.calls, s.owned);
  }

  lemma AllFreed(live: set<CallId>, freed: seq<CallId>, nextCall: nat)
    requires FreedOnce(live, freed, nextCall) && live == {}
    ensures NoDuplicates(freed) && forall k: nat :: k in freed <==> k < nextCall
  {
  }

  lemma EmptyOrNot(s: seq<CallId>)
    ensures s == [] || exists k :: k in s
  {
    if s != [] {
      assert s[0] in s;
    }
  }

  lemma OnlyOwned(chains: map<ChainId, Chain>, calls: map<CallId, Call>, owned: set<ChainId>)
    requires Held(chains, owned, None) && Linked(chains, calls, None) && calls.Keys == {}
    ensures chains.Keys == owned && forall c | c in chains :: chains[c].calls == [] && chains[c].refcount == 1
  {
    assert forall c, k {:trigger k in chains[c].calls} | c in chains :: k !in chains[c].calls;
    forall c | c in chains ensures chains[c].calls == [] {
      EmptyOrNot(chains[c].calls);
    }
  }
}
