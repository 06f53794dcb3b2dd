/**
 What happens to authorization chains over time, and what a chain must hold after it
 (src/bm-manager-auth.c).
 */
module AuthHistory {
  import opened Maps

  type ChainId = nat
  type CallId = nat

  /** How an authorization check ends: with an error, or with polkit's two answers. */
  datatype Outcome = Failed(error: string) | Answer(authorized: bool, challenge: bool)

  // BMAuthCallResult
  const UNKNOWN := 0
  const YES := 1
  const AUTH := 2
  const NO := 3

  function CallResult(o: Outcome): nat {
    match o
    case Failed(_) => UNKNOWN
    case Answer(authorized, challenge) => if authorized then YES else if challenge then AUTH else NO
  }

  /** `Fired` records what the done callback is given: the chain's error and its data. */
  datatype Record =
    | Added(chain: ChainId, call: CallId, permission: string)
    | Completed(chain: ChainId, call: CallId, permission: string, outcome: Outcome)
    | DataSet(chain: ChainId, tag: string, value: nat)
    | Fired(chain: ChainId, error: Option<string>, data: map<string, nat>)
    | Dropped(chain: ChainId)

  // ---------- The state of a chain, replayed from its history ----------

  /** bm_auth_chain_set_data: NULL removes the tag. */
  function WithData(data: map<string, nat>, tag: string, value: nat): map<string, nat> {
    if value == 0 then data - {tag} else data[tag := value]
  }

  ghost function DataOf(h: seq<Record>, c: ChainId): map<string, nat> {
    if h == [] then map[]
    else
      var before, r := DataOf(h[..|h| - 1], c), h[|h| - 1];
      if r.chain != c then before
      else match r
        case Completed(_, _, p, o) => if o.Failed? then before else WithData(before, p, CallResult(o))
        case DataSet(_, tag, v) => WithData(before, tag, v)
        case _ => before
  }

  ghost function ErrorOf(h: seq<Record>, c: ChainId): Option<string> {
    if h == [] then None
    else
      var before, r := ErrorOf(h[..|h| - 1], c), h[|h| - 1];
      if before.None? && r.chain == c && r.Completed? && r.outcome.Failed? then Some(r.outcome.error) else before
  }

  /** Calls added and not yet completed. */
  ghost function Outstanding(h: seq<Record>, c: ChainId): int {
    if h == [] then 0
    else
      var before, r := Outstanding(h[..|h| - 1], c), h[|h| - 1];
      if r.chain != c then before
      else if r.Added? then before + 1
      else if r.Completed? then before - 1
      else before
  }

  ghost function Fires(h: seq<Record>, c: ChainId): nat {
    if h == [] then 0
    else Fires(h[..|h| - 1], c) + if h[|h| - 1].Fired? && h[|h| - 1].chain == c then 1 else 0
  }

  // ---------- The rules every history follows ----------

  /** The last thing that happened was the completion of the last outstanding call of c. */
  ghost predicate MustFire(h: seq<Record>, c: ChainId) {
    h != [] && h[|h| - 1].Completed? && h[|h| - 1].chain == c && Outstanding(h, c) == 0
  }

  /** A record may follow a history. */
  ghost predicate Follows(h: seq<Record>, r: Record) {
    && (forall c :: MustFire(h, c) ==> r.Fired? && r.chain == c)
    && Dropped(r.chain) !in h
    && (r.Completed? ==> Outstanding(h, r.chain) > 0)
    && (r.Fired? ==> MustFire(h, r.chain) && r.error == ErrorOf(h, r.chain) && r.data == DataOf(h, r.chain))
  }

  ghost predicate WellFormed(h: seq<Record>) {
    h == [] || (WellFormed(h[..|h| - 1]) && Follows(h[..|h| - 1], h[|h| - 1]))
  }

  lemma Snoc(h: seq<Record>, r: Record)
    ensures var h' := h + [r];
            && h'[..|h'| - 1] == h && h'[|h'| - 1] == r
            && (WellFormed(h) && Follows(h, r) ==> WellFormed(h'))
  {
    assert (h + [r])[..|h|] == h;
  }

  // ---------- Verdicts and errors ----------

  /** The record decides what the chain stores under the tag. */
  predicate Stores(r: Record, c: ChainId, tag: string) {
    && r.chain == c
    && ((r.Completed? && !r.outcome.Failed? && r.permission == tag) || (r.DataSet? && r.tag == tag))
  }

  /** What is stored by then: 1, 2 or 3 for polkit's answer, or the owner's value, none for a zero. */
  ghost predicate Holds(data: map<string, nat>, tag: string, r: Record) {
    match r
    case Completed(_, _, _, Answer(authorized, challenge)) =>
      tag in data && data[tag] == if authorized then 1 else if challenge then 2 else 3
    case DataSet(_, _, v) => if v == 0 then tag !in data else tag in data && data[tag] == v
    case _ => false
  }

  /** What a chain stores for a permission is what the latest error-free check of it said. */
  lemma {:induction false} LatestVerdict(h: seq<Record>, c: ChainId, tag: string, i: nat)
    requires i < |h| && Stores(h[i], c, tag)
    requires forall j | i < j < |h| :: !Stores(h[j], c, tag)
    ensures Holds(DataOf(h, c), tag, h[i])
  {
    if i < |h| - 1 {
      LatestVerdict(h[..|h| - 1], c, tag, i);
    }
  }

  lemma {:induction false} NoVerdict(h: seq<Record>, c: ChainId, tag: string)
    requires forall j | 0 <= j < |h| :: !Stores(h[j], c, tag)
    ensures tag !in DataOf(h, c)
  {
    if h != [] {
      NoVerdict(h[..|h| - 1], c, tag);
    }
  }

  predicate Fails(r: Record, c: ChainId) {
    r.chain == c && r.Completed? && r.outcome.Failed?
  }

  /** The stored error is that of the first check to complete with one. */
  lemma {:induction false} FirstError(h: seq<Record>, c: ChainId)
    ensures ErrorOf(h, c).None? <==> forall j | 0 <= j < |h| :: !Fails(h[j], c)
    ensures ErrorOf(h, c).Some? ==>
              exists i :: 0 <= i < |h| && Fails(h[i], c) && h[i].outcome.error == ErrorOf(h, c).value
                          && forall j | 0 <= j < i :: !Fails(h[j], c)
  {
    if h != [] {
      var p := h[..|h| - 1];
      FirstError(p, c);
      if ErrorOf(p, c).Some? {
        var i :| 0 <= i < |p| && Fails(p[i], c) && p[i].outcome.error == ErrorOf(p, c).value
                 && forall j | 0 <= j < i :: !Fails(p[j], c);
        assert h[i] == p[i] && forall j | 0 <= j < i :: h[j] == p[j];
      } else {
        assert forall j | 0 <= j < |p| :: h[j] == p[j];
      }
    }
  }

  // ---------- When the done callback fires ----------

  ghost predicate EverAdded(h: seq<Record>, c: ChainId) {
    exists i :: 0 <= i < |h| && h[i].Added? && h[i].chain == c
  }

  /** A call has been added to c after its callback had fired. */
  ghost predicate AddedAfterFire(h: seq<Record>, c: ChainId) {
    exists i, j :: 0 <= i < j < |h| && h[i].Fired? && h[i].chain == c && h[j].Added? && h[j].chain == c
  }

  ghost predicate EverFired(h: seq<Record>, c: ChainId) {
    exists i :: 0 <= i < |h| && h[i].Fired? && h[i].chain == c
  }

  lemma EverAddedMore(h: seq<Record>, c: ChainId)
    requires h != []
    ensures var p, r := h[..|h| - 1], h[|h| - 1];
            EverAdded(h, c) <==> EverAdded(p, c) || (r.Added? && r.chain == c)
  {
    var p := h[..|h| - 1];
    if i :| 0 <= i < |p| && p[i].Added? && p[i].chain == c {
      assert h[i] == p[i];
    }
    if i :| 0 <= i < |h| && h[i].Added? && h[i].chain == c {
      assert i < |p| ==> p[i] == h[i];
    }
  }

  lemma EverFiredMore(h: seq<Record>, c: ChainId)
    requires h != []
    ensures var p, r := h[..|h| - 1], h[|h| - 1];
            EverFired(h, c) <==> EverFired(p, c) || (r.Fired? && r.chain == c)
  {
    var p := h[..|h| - 1];
    if i :| 0 <= i < |p| && p[i].Fired? && p[i].chain == c {
      assert h[i] == p[i];
    }
    if i :| 0 <= i < |h| && h[i].Fired? && h[i].chain == c {
      assert i < |p| ==> p[i] == h[i];
    }
  }

  lemma AddedAfterFireMore(h: seq<Record>, c: ChainId)
    requires h != []
    ensures var p, r := h[..|h| - 1], h[|h| - 1];
            AddedAfterFire(h, c) <==> AddedAfterFire(p, c) || (EverFired(p, c) && r.Added? && r.chain == c)
  {
    var p := h[..|h| - 1];
    if i, j :| 0 <= i < j < |p| && p[i].Fired? && p[i].chain == c && p[j].Added? && p[j].chain == c {
      assert h[i] == p[i] && h[j] == p[j];
    }
    if i, j :| 0 <= i < j < |h| && h[i].Fired? && h[i].chain == c && h[j].Added? && h[j].chain == c {
      assert p[i] == h[i] && (j < |p| ==> p[j] == h[j]);
    }
    if i :| 0 <= i < |p| && p[i].Fired? && p[i].chain == c {
      assert h[i] == p[i];
    }
  }

  /** While calls are outstanding, or a fire is due, what has been fired is one fire behind what was added. */
  lemma {:induction false} FiresSoFar(h: seq<Record>, c: ChainId)
    requires WellFormed(h)
    ensures Outstanding(h, c) >= 0
    ensures EverFired(h, c) <==> Fires(h, c) >= 1
    ensures EverAdded(h, c) <==> Fires(h, c) >= 1 || Outstanding(h, c) > 0 || MustFire(h, c)
    ensures AddedAfterFire(h, c) <==>
            Fires(h, c) >= 2 || (Fires(h, c) == 1 && (Outstanding(h, c) > 0 || MustFire(h, c)))
  {
    if h != [] {
      FiresSoFar(h[..|h| - 1], c);
      EverFiredMore(h, c);
      EverAddedMore(h, c);
      AddedAfterFireMore(h, c);
    }
  }

  /**
   With no call outstanding and no fire due, the callback has fired iff a call was ever added, and
   more than once iff a call was added after a fire.
   */
  lemma FiresIff(h: seq<Record>, c: ChainId)
    requires WellFormed(h) && !MustFire(h, c) && Outstanding(h, c) == 0
    ensures Fires(h, c) >= 1 <==> EverAdded(h, c)
    ensures Fires(h, c) <= 1 <==> !AddedAfterFire(h, c)
  {
    FiresSoFar(h, c);
  }

  /** No call is added to c once one of its calls has completed. */
  ghost predicate NoLateAdds(h: seq<Record>, c: ChainId) {
    forall i, j | 0 <= i < j < |h| && h[i].Completed? && h[i].chain == c && h[j].chain == c :: !h[j].Added?
  }

  ghost predicate AnyCompleted(h: seq<Record>, c: ChainId) {
    exists i :: 0 <= i < |h| && h[i].Completed? && h[i].chain == c
  }

  /**
   If all calls are added before the first completes, the callback fires at most once: exactly
   when some call has completed and none is outstanding, right after the last completion.
   */
  lemma {:induction false} FiresOnce(h: seq<Record>, c: ChainId)
    requires WellFormed(h) && NoLateAdds(h, c)
    ensures Fires(h, c) == if AnyCompleted(h, c) && Outstanding(h, c) == 0 && !MustFire(h, c) then 1 else 0
    ensures Outstanding(h, c) >= 0
  {
    if h != [] {
      var p, r := h[..|h| - 1], h[|h| - 1];
      assert NoLateAdds(p, c) by {
        assert forall i | 0 <= i < |p| :: p[i] == h[i];
      }
      FiresOnce(p, c);
      if AnyCompleted(p, c) {
        var i :| 0 <= i < |p| && p[i].Completed? && p[i].chain == c;
        assert h[i] == p[i];
        assert AnyCompleted(h, c);
      } else if AnyCompleted(h, c) {
        var i :| 0 <= i < |h| && h[i].Completed? && h[i].chain == c;
        assert i == |h| - 1;
      }
    }
  }

  /** Once the owner has dropped a chain, the callback does not fire for it any more. */
  lemma {:induction false} NoFireAfterDrop(h: seq<Record>, c: ChainId, i: nat)
    requires WellFormed(h) && i < |h| && h[i] == Dropped(c)
    ensures Fires(h, c) == Fires(h[..i], c)
    ensures Outstanding(h, c) == Outstanding(h[..i], c)
  {
    var p := h[..|h| - 1];
    if i < |h| - 1 {
      assert p[i] == Dropped(c) && p[..i] == h[..i];
      NoFireAfterDrop(p, c, i);
    }
  }

  /** A chain dropped with calls outstanding, before any fire, never fires. */
  lemma DroppedEarlyNeverFires(h: seq<Record>, c: ChainId, i: nat)
    requires WellFormed(h) && i < |h| && h[i] == Dropped(c)
    requires NoLateAdds(h[..i], c) && Outstanding(h[..i], c) > 0
    ensures Fires(h, c) == 0
  {
    NoFireAfterDrop(h, c, i);
    PrefixWellFormed(h, i);
    FiresOnce(h[..i], c);
  }

  lemma {:induction false} PrefixWellFormed(h: seq<Record>, n: nat)
    requires WellFormed(h) && n <= |h|
    ensures WellFormed(h[..n])
  {
    if n == |h| {
      assert h[..n] == h;
    } else {
      var p := h[..|h| - 1];
      assert p[..n] == h[..n];
      PrefixWellFormed(p, n);
    }
  }

  /** The data holds for the tag what the latest record that stores for it said, if there is one. */
  ghost predicate TellsLatest(h: seq<Record>, c: ChainId, tag: string, data: map<string, nat>) {
    && ((forall j | 0 <= j < |h| :: !Stores(h[j], c, tag)) ==> tag !in data)
    && forall i | 0 <= i < |h| && Stores(h[i], c, tag) && (forall j | i < j < |h| :: !Stores(h[j], c, tag)) ::
         Holds(data, tag, h[i])
  }

  /** The error is that of the first record that fails, if there is one. */
  ghost predicate TellsFirst(h: seq<Record>, c: ChainId, error: Option<string>) {
    && (error.None? <==> forall j | 0 <= j < |h| :: !Fails(h[j], c))
    && (error.Some? ==>
          exists i :: 0 <= i < |h| && Fails(h[i], c) && h[i].outcome.error == error.value
                      && forall j | 0 <= j < i :: !Fails(h[j], c))
  }

  /** What the done callback is given: the latest verdicts and the first error up to then. */
  lemma FireTells(h: seq<Record>, i: nat, tag: string)
    requires WellFormed(h) && i < |h| && h[i].Fired?
    ensures TellsLatest(h[..i], h[i].chain, tag, h[i].data) && TellsFirst(h[..i], h[i].chain, h[i].error)
  {
    var p, c := h[..i], h[i].chain;
    FireMeaning(h, i);
    FirstError(p, c);
    if forall j | 0 <= j < |p| :: !Stores(p[j], c, tag) {
      NoVerdict(p, c, tag);
    }
    forall k | 0 <= k < |p| && Stores(p[k], c, tag) && (forall j | k < j < |p| :: !Stores(p[j], c, tag))
      ensures Holds(h[i].data, tag, p[k])
    {
      LatestVerdict(p, c, tag, k);
    }
  }

  /** Each fire comes right after a completion that leaves nothing outstanding, with the replayed state. */
  lemma FireMeaning(h: seq<Record>, i: nat)
    requires WellFormed(h) && i < |h| && h[i].Fired?
    ensures i > 0 && h[i - 1].Completed? && h[i - 1].chain == h[i].chain
    ensures Outstanding(h[..i], h[i].chain) == 0
    ensures h[i].error == ErrorOf(h[..i], h[i].chain) && h[i].data == DataOf(h[..i], h[i].chain)
  {
    PrefixWellFormed(h, i + 1);
    assert h[..i + 1][..i] == h[..i];
  }
}
