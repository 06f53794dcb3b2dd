/**
 The deferred notifications of an object (libbm-glib/bm-object.c): changed properties are queued,
 and an idle callback announces them in batches, while handlers may queue more.
 */
module NotifyQueue {

  /** A property queued when `at` notifications had been sent. */
  datatype Entry = Entry(prop: string, at: nat)

  /**
   What was queued since the last batch was taken, what was announced, all that was ever queued, and
   the references that are held to the object.
   */
  datatype State = State(queued: seq<string>, log: seq<string>, all: seq<Entry>, refs: nat)

  const EMPTY := State([], [], [], 1)

  datatype Act = Queue(prop: string) | Take | Drop

  /** What handlers do during a notification, given all notifications sent up to it. */
  type Handlers = seq<string> -> seq<Act>

  datatype Event = Does(act: Act) | Idle(handlers: Handlers)

  // ---------- What is queued and announced ----------

  /** Each property once, in the order in which they were first queued. */
  function FirstQueued(queued: seq<string>): seq<string> {
    if queued == [] then []
    else
      var before, p := FirstQueued(queued[..|queued| - 1]), queued[|queued| - 1];
      if p in before then before else before + [p]
  }

  function QueueStep(s: State, p: string): State {
    s.(queued := s.queued + [p], all := s.all + [Entry(p, |s.log|)])
  }

  function ActStep(s: State, a: Act): State {
    match a
    case Queue(p) => QueueStep(s, p)
    case Take => s.(refs := s.refs + 1)
    case Drop => if s.refs > 0 then s.(refs := s.refs - 1) else s
  }

  function ActAll(s: State, acts: seq<Act>): State
    decreases |acts|
  {
    if acts == [] then s else ActStep(ActAll(s, acts[..|acts| - 1]), acts[|acts| - 1])
  }

  /** One notification, with what its handlers do; for as long as it lasts it has its own reference. */
  function NotifyStep(s: State, p: string, handlers: Handlers): State {
    ActAll(s.(log := s.log + [p]), handlers(s.log + [p]))
  }

  function NotifyAll(s: State, batch: seq<string>, handlers: Handlers): State
    decreases |batch|
  {
    if batch == [] then s else NotifyStep(NotifyAll(s, batch[..|batch| - 1], handlers), batch[|batch| - 1], handlers)
  }

  /** Without references the object is disposed: what was queued goes. */
  function Disposed(s: State): State {
    if s.refs == 0 then s.(queued := []) else s
  }

  function FlushStep(s: State, handlers: Handlers): State {
    Disposed(NotifyAll(s.(queued := []), FirstQueued(s.queued), handlers))
  }

  /** The idle callback runs only when it has been scheduled; without the object nothing happens. */
  function EventStep(s: State, e: Event): State {
    if s.refs == 0 then s
    else match e
      case Does(a) => Disposed(ActStep(s, a))
      case Idle(handlers) => if s.queued == [] then s else FlushStep(s, handlers)
  }

  /** Some reference is left after every notification but the last. */
  ghost predicate Survives(s: State, batch: seq<string>, handlers: Handlers) {
    forall i | 0 <= i < |batch| :: NotifyAll(s, batch[..i], handlers).refs > 0
  }

  /** The idle callback holds no reference, so it needs that of others. */
  ghost predicate EventUsable(s: State, e: Event) {
    e.Idle? && s.queued != [] && s.refs > 0 ==> Survives(s.(queued := []), FirstQueued(s.queued), e.handlers)
  }

  ghost predicate RunUsable(events: seq<Event>)
    decreases |events|
  {
    events != [] ==>
      var before := events[..|events| - 1];
      RunUsable(before) && EventUsable(RunOf(before), events[|events| - 1])
  }

  function RunOf(events: seq<Event>): State
    decreases |events|
  {
    if events == [] then EMPTY else EventStep(RunOf(events[..|events| - 1]), events[|events| - 1])
  }

  // ---------- The order within a batch ----------

  ghost predicate NoDuplicates(list: seq<string>) {
    forall i, j | 0 <= i < j < |list| :: list[i] != list[j]
  }

  /** At some time p had been queued and q had not. */
  ghost predicate QueuedBefore(queued: seq<string>, p: string, q: string) {
    exists n :: 0 <= n <= |queued| && p in queued[..n] && q !in queued[..n]
  }

  lemma QueuedBeforeMore(queued: seq<string>, p: string, q: string)
    requires queued != [] && QueuedBefore(queued[..|queued| - 1], p, q)
    ensures QueuedBefore(queued, p, q)
  {
    var before := queued[..|queued| - 1];
    var n :| 0 <= n <= |before| && p in before[..n] && q !in before[..n];
    assert queued[..n] == before[..n];
  }

  /** A batch is what was queued, without repetitions and in first-queued order. */
  lemma {:induction false} FirstQueuedIs(queued: seq<string>)
    ensures NoDuplicates(FirstQueued(queued))
    ensures forall p :: p in FirstQueued(queued) <==> p in queued
    ensures forall i, j | 0 <= i < j < |FirstQueued(queued)| ::
              QueuedBefore(queued, FirstQueued(queued)[i], FirstQueued(queued)[j])
  {
    if queued != [] {
      var n := |queued| - 1;
      var before, batch := FirstQueued(queued[..n]), FirstQueued(queued);
      FirstQueuedIs(queued[..n]);
      assert queued == queued[..n] + [queued[n]];
      forall i, j | 0 <= i < j < |batch| ensures QueuedBefore(queued, batch[i], batch[j]) {
        if j < |before| {
          QueuedBeforeMore(queued, batch[i], batch[j]);
        } else {
          assert batch[i] in before && batch[i] in queued[..n];
        }
      }
    }
  }

  lemma {:induction false} NotifiedSoFar(s: State, batch: seq<string>, handlers: Handlers)
    ensures NotifyAll(s, batch, handlers).log == s.log + batch
    decreases |batch|
  {
    if batch != [] {
      var n := |batch| - 1;
      NotifiedSoFar(s, batch[..n], handlers);
      NotifiedOne(NotifyAll(s, batch[..n], handlers), batch[n], handlers);
      assert batch == batch[..n] + [batch[n]];
    }
  }

  lemma NotifiedOne(s: State, p: string, handlers: Handlers)
    ensures NotifyStep(s, p, handlers).log == s.log + [p]
  {
    ActAllLog(s.(log := s.log + [p]), handlers(s.log + [p]));
  }

  lemma {:induction false} ActAllLog(s: State, acts: seq<Act>)
    ensures ActAll(s, acts).log == s.log
    decreases |acts|
  {
    if acts != [] {
      ActAllLog(s, acts[..|acts| - 1]);
    }
  }

  /** A flush announces what was queued, each property once, and nothing that is queued meanwhile. */
  lemma FlushAnnounces(s: State, handlers: Handlers)
    ensures FlushStep(s, handlers).log == s.log + FirstQueued(s.queued)
    ensures (forall p :: handlers(p) == []) ==> FlushStep(s, handlers).queued == []
  {
    NotifiedSoFar(s.(queued := []), FirstQueued(s.queued), handlers);
    if forall p :: handlers(p) == [] {
      QuietHandlers(s.(queued := []), FirstQueued(s.queued), handlers);
    }
  }

  lemma {:induction false} QuietHandlers(s: State, batch: seq<string>, handlers: Handlers)
    requires forall p :: handlers(p) == []
    ensures NotifyAll(s, batch, handlers).queued == s.queued
    decreases |batch|
  {
    if batch != [] {
      QuietHandlers(s, batch[..|batch| - 1], handlers);
    }
  }

  // ---------- Nothing is lost, nothing is made up ----------

  /** Announced since it was queued, about to be announced, or waiting for the next batch. */
  ghost predicate Accounted(s: State, rest: seq<string>, e: Entry) {
    e.at <= |s.log| && (e.prop in s.queued || e.prop in rest || e.prop in s.log[e.at..])
  }

  ghost predicate Inv(s: State, rest: seq<string>) {
    && (forall e | e in s.all :: Accounted(s, rest, e))
    && NotMore(s, rest)
  }

  /** How often a property has been and will be announced, as far as is known. */
  function Announced(s: State, rest: seq<string>, p: string): nat {
    multiset(s.log)[p] + multiset(rest)[p] + multiset(FirstQueued(s.queued))[p]
  }

  ghost predicate NotMore(s: State, rest: seq<string>) {
    forall p :: Announced(s, rest, p) <= Queuings(s.all, p)
  }

  /** How often a property has been queued. */
  function Queuings(all: seq<Entry>, p: string): nat {
    if all == [] then 0
    else Queuings(all[..|all| - 1], p) + if all[|all| - 1].prop == p then 1 else 0
  }

  lemma QueueCounts(s: State, p: string, q: string)
    ensures Queuings(QueueStep(s, p).all, q) == Queuings(s.all, q) + if q == p then 1 else 0
    ensures multiset(FirstQueued(QueueStep(s, p).queued))[q] <=
            multiset(FirstQueued(s.queued))[q] + if q == p then 1 else 0
  {
    var t := QueueStep(s, p);
    assert t.queued[..|s.queued|] == s.queued && t.all[..|s.all|] == s.all;
  }

  lemma QueueAccounts(s: State, rest: seq<string>, p: string, e: Entry)
    requires e == Entry(p, |s.log|) || Accounted(s, rest, e)
    ensures Accounted(QueueStep(s, p), rest, e)
  {
  }

  lemma QueueInv(s: State, rest: seq<string>, p: string)
    requires Inv(s, rest)
    ensures Inv(QueueStep(s, p), rest)
  {
    forall e | e in QueueStep(s, p).all ensures Accounted(QueueStep(s, p), rest, e) {
      QueueAccounts(s, rest, p, e);
    }
    QueueLess(s, rest, p);
  }

  lemma QueueLess(s: State, rest: seq<string>, p: string)
    requires NotMore(s, rest)
    ensures NotMore(QueueStep(s, p), rest)
  {
    forall q ensures Announced(QueueStep(s, p), rest, q) <= Queuings(QueueStep(s, p).all, q) {
      QueueCounts(s, p, q);
      assert Announced(s, rest, q) <= Queuings(s.all, q);
    }
  }

  lemma ActInv(s: State, rest: seq<string>, a: Act)
    requires Inv(s, rest)
    ensures Inv(ActStep(s, a), rest)
  {
    var t := ActStep(s, a);
    if a.Queue? {
      QueueInv(s, rest, a.prop);
    } else {
      forall e | e in t.all ensures Accounted(t, rest, e) {
        assert Accounted(s, rest, e);
      }
      forall p ensures Announced(t, rest, p) <= Queuings(t.all, p) {
        assert Announced(s, rest, p) <= Queuings(s.all, p);
      }
    }
  }

  lemma {:induction false} ActAllInv(s: State, rest: seq<string>, acts: seq<Act>)
    requires Inv(s, rest)
    ensures Inv(ActAll(s, acts), rest)
    decreases |acts|
  {
    if acts != [] {
      ActAllInv(s, rest, acts[..|acts| - 1]);
      ActInv(ActAll(s, acts[..|acts| - 1]), rest, acts[|acts| - 1]);
    }
  }

  lemma NotifyInv(s: State, p: string, rest: seq<string>, handlers: Handlers)
    requires Inv(s, [p] + rest)
    ensures Inv(NotifyStep(s, p, handlers), rest)
  {
    var t := s.(log := s.log + [p]);
    forall e | e in t.all ensures Accounted(t, rest, e) {
      assert Accounted(s, [p] + rest, e);
      assert t.log[e.at..] == s.log[e.at..] + [p];
    }
    assert multiset([p] + rest) == multiset{p} + multiset(rest);
    forall q ensures Announced(t, rest, q) <= Queuings(t.all, q) {
      assert Announced(t, rest, q) == Announced(s, [p] + rest, q);
    }
    ActAllInv(t, rest, handlers(t.log));
  }

  lemma {:induction false} NotifyAllInv(s: State, batch: seq<string>, rest: seq<string>, handlers: Handlers)
    requires Inv(s, batch + rest)
    ensures Inv(NotifyAll(s, batch, handlers), rest)
    decreases |batch|
  {
    if batch == [] {
      assert batch + rest == rest;
    } else {
      var n := |batch| - 1;
      assert batch + rest == batch[..n] + ([batch[n]] + rest);
      NotifyAllInv(s, batch[..n], [batch[n]] + rest, handlers);
      NotifyInv(NotifyAll(s, batch[..n], handlers), batch[n], rest, handlers);
    }
  }

  lemma FlushInv(s: State, handlers: Handlers)
    requires Inv(s, [])
    ensures RunInvOf(FlushStep(s, handlers))
  {
    var t, batch := s.(queued := []), FirstQueued(s.queued);
    FirstQueuedIs(s.queued);
    assert batch + [] == batch;
    forall e | e in t.all ensures Accounted(t, batch, e) {
      assert Accounted(s, [], e);
    }
    forall p ensures Announced(t, batch, p) <= Queuings(t.all, p) {
      assert Announced(t, batch, p) == Announced(s, [], p);
    }
    NotifyAllInv(t, batch, [], handlers);
    DisposedInv(NotifyAll(t, batch, handlers));
  }

  /** Without the object, what was queued is not announced any more. */
  ghost predicate RunInvOf(s: State) {
    NotMore(s, []) && (s.refs > 0 ==> Inv(s, []))
  }

  lemma DisposedInv(s: State)
    requires Inv(s, [])
    ensures RunInvOf(Disposed(s))
  {
    if s.refs == 0 {
      var t := Disposed(s);
      forall p ensures Announced(t, [], p) <= Queuings(t.all, p) {
        assert Announced(s, [], p) <= Queuings(s.all, p);
      }
    }
  }

  /**
   In every run, with handlers that queue more and take and drop references: a property is announced
   after it was queued unless it is still waiting or the object is gone, and it is not announced more
   often than it was queued.
   */
  lemma {:induction false} RunInv(events: seq<Event>)
    ensures var s := RunOf(events);
            && (s.refs > 0 ==>
                  forall e | e in s.all :: e.at <= |s.log| && (e.prop in s.queued || e.prop in s.log[e.at..]))
            && (forall p :: multiset(s.log)[p] + (if p in s.queued then 1 else 0) <= Queuings(s.all, p))
    ensures RunInvOf(RunOf(events))
    decreases |events|
  {
    if events != [] {
      var before := events[..|events| - 1];
      RunInv(before);
      if RunOf(before).refs > 0 {
        match events[|events| - 1]
        case Does(a) =>
          ActInv(RunOf(before), [], a);
          DisposedInv(ActStep(RunOf(before), a));
        case Idle(handlers) => if RunOf(before).queued != [] { FlushInv(RunOf(before), handlers); }
      }
    }
    RunMeaning(RunOf(events));
  }

  // ---------- Disposal and idle callbacks ----------

  /** In every run, nothing stays queued on an object that is gone. */
  lemma {:induction false} GoneQueuesNothing(events: seq<Event>)
    ensures RunOf(events).refs == 0 ==> RunOf(events).queued == []
    decreases |events|
  {
    if events != [] {
      GoneQueuesNothing(events[..|events| - 1]);
    }
  }

  /**
   In every run, an idle callback that finds the object announces all that was queued by then, in
   first-queued order, and nothing else.
   */
  lemma {:induction false} IdleAnnounces(events: seq<Event>, handlers: Handlers)
    requires RunOf(events).refs > 0
    ensures var s, t := RunOf(events), RunOf(events + [Idle(handlers)]);
            t.log == s.log + FirstQueued(s.queued)
  {
    var s := RunOf(events);
    assert (events + [Idle(handlers)])[..|events|] == events;
    FlushAnnounces(s, handlers);
    assert s.queued == [] ==> s.log + [] == s.log;
  }

  /** So nothing that had been queued before it is still to be announced after it. */
  lemma {:induction false} IdleCatchesUp(events: seq<Event>, handlers: Handlers, e: Entry)
    requires RunOf(events).refs > 0 && e in RunOf(events).all
    ensures e.at <= |RunOf(events).log| <= |RunOf(events + [Idle(handlers)]).log|
    ensures e.prop in RunOf(events + [Idle(handlers)]).log[e.at..]
  {
    var s, t := RunOf(events), RunOf(events + [Idle(handlers)]);
    IdleAnnounces(events, handlers);
    RunAccounts(events, e);
    InLaterLog(s.log, FirstQueued(s.queued), e.at, e.prop);
  }

  lemma {:induction false} RunAccounts(events: seq<Event>, e: Entry)
    requires RunOf(events).refs > 0 && e in RunOf(events).all
    ensures e.at <= |RunOf(events).log|
    ensures e.prop in FirstQueued(RunOf(events).queued) || e.prop in RunOf(events).log[e.at..]
  {
    RunInv(events);
    FirstQueuedIs(RunOf(events).queued);
  }

  lemma InLaterLog(log: seq<string>, batch: seq<string>, at: nat, p: string)
    requires at <= |log| && (p in batch || p in log[at..])
    ensures p in (log + batch)[at..]
  {
    assert (log + batch)[at..] == log[at..] + batch;
  }

  /** What a holder queues is queued, and what it takes and drops is counted, while the object is there. */
  lemma DoesSteps(events: seq<Event>, a: Act)
    requires RunOf(events).refs > 0
    ensures var s, t := RunOf(events), RunOf(events + [Does(a)]);
            && t.log == s.log
            && (a.Queue? ==> t.queued == s.queued + [a.prop] && t.refs == s.refs
                             && t.all == s.all + [Entry(a.prop, |s.log|)])
            && (a.Take? ==> t.refs == s.refs + 1 && t.queued == s.queued && t.all == s.all)
            && (a.Drop? ==> t.refs == s.refs - 1 && t.all == s.all
                            && t.queued == if s.refs == 1 then [] else s.queued)
  {
    assert (events + [Does(a)])[..|events|] == events;
  }

  lemma RunMeaning(s: State)
    requires RunInvOf(s)
    ensures s.refs > 0 ==>
              forall e | e in s.all :: e.at <= |s.log| && (e.prop in s.queued || e.prop in s.log[e.at..])
    ensures forall p :: multiset(s.log)[p] + (if p in s.queued then 1 else 0) <= Queuings(s.all, p)
  {
    FirstQueuedIs(s.queued);
    if s.refs > 0 {
      forall e | e in s.all ensures e.at <= |s.log| && (e.prop in s.queued || e.prop in s.log[e.at..]) {
        assert Accounted(s, [], e);
      }
    }
    forall p ensures multiset(s.log)[p] + (if p in s.queued then 1 else 0) <= Queuings(s.all, p) {
      assert Announced(s, [], p) <= Queuings(s.all, p);
      assert p in s.queued ==> p in multiset(FirstQueued(s.queued));
    }
  }

  // ---------- The object stays ----------

  /** How many references the handlers drop in some notifications. */
  function Drops(log: seq<string>, batch: seq<string>, handlers: Handlers): nat
    decreases |batch|
  {
    if batch == [] then 0
    else Drops(log, batch[..|batch| - 1], handlers) + multiset(handlers(log + batch))[Drop]
  }

  lemma {:induction false} ActAllRefs(s: State, acts: seq<Act>)
    ensures ActAll(s, acts).refs + multiset(acts)[Drop] >= s.refs
    decreases |acts|
  {
    if acts != [] {
      ActAllRefs(s, acts[..|acts| - 1]);
      assert acts == acts[..|acts| - 1] + [acts[|acts| - 1]];
    }
  }

  lemma {:induction false} NotifyAllRefs(s: State, batch: seq<string>, handlers: Handlers)
    ensures NotifyAll(s, batch, handlers).refs + Drops(s.log, batch, handlers) >= s.refs
    decreases |batch|
  {
    if batch != [] {
      var n := |batch| - 1;
      var t := NotifyAll(s, batch[..n], handlers);
      NotifyAllRefs(s, batch[..n], handlers);
      NotifiedSoFar(s, batch[..n], handlers);
      assert batch == batch[..n] + [batch[n]];
      assert t.log + [batch[n]] == s.log + batch;
      ActAllRefs(t.(log := t.log + [batch[n]]), handlers(s.log + batch));
    }
  }

  lemma {:induction false} DropsMore(log: seq<string>, batch: seq<string>, i: nat, handlers: Handlers)
    requires i <= |batch|
    ensures Drops(log, batch[..i], handlers) <= Drops(log, batch, handlers)
    decreases |batch|
  {
    if i == |batch| {
      assert batch[..i] == batch;
    } else {
      var before := batch[..|batch| - 1];
      DropsMore(log, before, i, handlers);
      assert before[..i] == batch[..i];
    }
  }

  /** A batch is survived if its notifications but the last drop fewer references than there are. */
  lemma EnoughRefs(s: State, batch: seq<string>, handlers: Handlers)
    requires batch != [] && Drops(s.log, batch[..|batch| - 1], handlers) < s.refs
    ensures Survives(s, batch, handlers)
  {
    var before := batch[..|batch| - 1];
    forall i | 0 <= i < |batch| ensures NotifyAll(s, batch[..i], handlers).refs > 0 {
      assert batch[..i] == before[..i];
      DropsMore(s.log, before, i, handlers);
      NotifyAllRefs(s, batch[..i], handlers);
    }
  }

  /** It is not if the only reference is dropped during a notification before the last. */
  lemma {:induction false} LastRefDropped(p: string, q: string, handlers: Handlers)
    requires p != q && handlers([p]) == [Drop]
    ensures !RunUsable([Does(Queue(p)), Does(Queue(q)), Idle(handlers)])
  {
    var events := [Does(Queue(p)), Does(Queue(q)), Idle(handlers)];
    var before := [Does(Queue(p)), Does(Queue(q))];
    assert events[..2] == before && before[..1] == [Does(Queue(p))] && [Does(Queue(p))][..0] == [];
    var s := RunOf(before);
    assert RunOf([Does(Queue(p))]) == QueueStep(EMPTY, p);
    assert s == QueueStep(QueueStep(EMPTY, p), q);
    assert s.queued == [p, q] && s.log == [] && s.refs == 1;
    TwoFirst(p, q);
    FirstDrop(s.(queued := []), p, handlers);
    assert [p, q][..1] == [p];
  }

  lemma {:induction false} TwoFirst(p: string, q: string)
    requires p != q
    ensures FirstQueued([p, q]) == [p, q]
  {
    assert [p, q][..1] == [p] && [p][..0] == [];
    assert FirstQueued([p]) == [p];
  }

  lemma {:induction false} FirstDrop(s: State, p: string, handlers: Handlers)
    requires s.refs == 1 && s.log == [] && handlers([p]) == [Drop]
    ensures NotifyAll(s, [p], handlers).refs == 0
  {
    assert [p][..0] == [] && [] + [p] == [p];
    var t := s.(log := [p]);
    assert [Drop][..0] == [] && ActAll(t, []) == t && ActAll(t, [Drop]) == ActStep(t, Drop);
    assert NotifyAll(s, [], handlers) == s;
  }

  // ---------- The code ----------

  function Reversed(list: seq<string>): seq<string> {
    if list == [] then [] else Reversed(list[1..]) + [list[0]]
  }

  lemma {:induction false} ReversedMore(list: seq<string>, p: string)
    ensures Reversed([p] + list) == Reversed(list) + [p]
    ensures forall q :: q in Reversed(list) <==> q in list
  {
    assert ([p] + list)[1..] == list;
    if list != [] {
      ReversedMore(list[1..], p);
      assert list == [list[0]] + list[1..];
    }
  }

  lemma ActAllStep(s: State, acts: seq<Act>, i: nat)
    requires i < |acts|
    ensures ActAll(s, acts[..i + 1]) == ActStep(ActAll(s, acts[..i]), acts[i])
  {
    assert acts[..i + 1][..i] == acts[..i];
  }

  lemma NotifyAllStep(s: State, batch: seq<string>, i: nat, handlers: Handlers)
    requires i < |batch|
    ensures NotifyAll(s, batch[..i + 1], handlers) == NotifyStep(NotifyAll(s, batch[..i], handlers), batch[i], handlers)
  {
    assert batch[..i + 1][..i] == batch[..i];
  }

  class Notifier {
    var notifyId: nat
    var notifyProps: seq<string>
    var sources: set<nat>
    var nextSource: nat
    var refs: nat
    ghost var queued: seq<string>
    var log: seq<string>
    ghost var all: seq<Entry>

    ghost function S(): State
      reads this
    {
      State(queued, log, all, refs)
    }

    /** The list holds the next batch, newest first, and a flush is scheduled iff it is not empty. */
    ghost predicate Valid()
      reads this
    {
      && Reversed(notifyProps) == FirstQueued(queued)
      && (notifyId != 0 <==> notifyProps != [])
      && (notifyId != 0 <==> queued != [])
      && sources == (if notifyId == 0 then {} else {notifyId})
      && nextSource > 0
    }

    constructor ()
      ensures Valid() && S() == EMPTY
    {
      notifyId, notifyProps, sources, nextSource, refs := 0, [], {}, 1, 1;
      queued, log, all := [], [], [];
    }

    /** _bm_object_queue_notify */
    method QueueNotify(property: string)
      requires Valid()
      modifies this
      ensures Valid() && S() == QueueStep(old(S()), property)
    {
      if notifyId == 0 {
        notifyId := nextSource;
        sources := sources + {notifyId};
        nextSource := nextSource + 1;
      }
      var found := false;
      var i := 0;
      while i < |notifyProps| && !found
        invariant 0 <= i <= |notifyProps|
        invariant found <==> property in notifyProps[..i]
      {
        found := notifyProps[i] == property;
        i := i + 1;
      }
      assert found <==> property in notifyProps;
      ReversedMore(notifyProps, property);
      if !found {
        notifyProps := [property] + notifyProps;
      }
      assert (queued + [property])[..|queued|] == queued;
      queued, all := queued + [property], all + [Entry(property, |log|)];
    }

    /** What a holder of the object does. */
    method DoOne(a: Act)
      requires Valid()
      modifies this
      ensures Valid() && S() == ActStep(old(S()), a)
    {
      match a {
        case Queue(p) => QueueNotify(p);
        case Take => refs := refs + 1;
        case Drop => if refs > 0 { refs := refs - 1; }
      }
    }

    method DoAll(acts: seq<Act>)
      requires Valid()
      modifies this
      ensures Valid() && S() == ActAll(old(S()), acts)
    {
      ghost var s := S();
      var i := 0;
      while i < |acts|
        invariant 0 <= i <= |acts| && Valid() && S() == ActAll(s, acts[..i])
      {
        ActAllStep(s, acts, i);
        DoOne(acts[i]);
        i := i + 1;
      }
      assert acts[..i] == acts;
    }

    /** g_object_notify on a live object, which it holds while the handlers run. */
    method Notify(property: string, handlers: Handlers)
      requires Valid() && refs > 0
      modifies this
      ensures Valid() && S() == NotifyStep(old(S()), property, handlers)
    {
      log := log + [property];
      DoAll(handlers(log));
    }

    /** dispose, when no reference is left: the idle source and the list go. */
    method Dispose()
      requires Valid()
      modifies this
      ensures Valid() && S() == Disposed(old(S()))
      ensures refs == 0 ==> sources == {} && notifyProps == [] && notifyId == 0
    {
      if refs == 0 {
        if notifyId != 0 {
          sources := sources - {notifyId};
          notifyId := 0;
        }
        notifyProps := [];
        queued := [];
      }
    }

    /** g_slist_reverse */
    method Reverse(list: seq<string>) returns (reversed: seq<string>)
      ensures reversed == Reversed(list)
    {
      reversed := [];
      var i := 0;
      while i < |list|
        invariant 0 <= i <= |list| && Reversed(list[i..]) + reversed == Reversed(list)
      {
        reversed := [list[i]] + reversed;
        assert list[i..][1..] == list[i + 1..];
        i := i + 1;
      }
    }

    /**
     deferred_notify_cb, as an idle source that has been scheduled: returning FALSE removes it. The
     callback has no reference of its own, so some other must outlast all notifications but the last.
     */
    method DeferredNotify(source: nat, handlers: Handlers)
      requires Valid() && source in sources
      requires Survives(S().(queued := []), FirstQueued(queued), handlers)
      modifies this
      ensures Valid() && S() == FlushStep(old(S()), handlers)
      ensures refs == 0 ==> sources == {} && notifyProps == []
    {
      sources := sources - {source};
      notifyId := 0;
      var props := Reverse(notifyProps);
      notifyProps := [];
      queued := [];
      ghost var s := S();
      var i := 0;
      while i < |props|
        invariant 0 <= i <= |props| && Valid() && S() == NotifyAll(s, props[..i], handlers)
      {
        NotifyAllStep(s, props, i, handlers);
        Notify(props[i], handlers);
        i := i + 1;
      }
      assert props[..i] == props;
      Dispose();
    }
  }

  lemma {:induction false} PrefixUsable(events: seq<Event>, n: nat)
    requires RunUsable(events) && n <= |events|
    ensures RunUsable(events[..n])
    decreases |events|
  {
    if n == |events| {
      assert events[..n] == events;
    } else {
      assert events[..|events| - 1][..n] == events[..n];
      PrefixUsable(events[..|events| - 1], n);
    }
  }

  /**
   Any run of holders' acts and of idle callbacks, which run as soon as there is nothing else to do,
   in which each batch is survived.
   */
  method Run(events: seq<Event>) returns (o: Notifier)
    requires RunUsable(events)
    ensures fresh(o) && o.Valid() && o.S() == RunOf(events)
    ensures o.refs == 0 ==> o.sources == {} && o.notifyProps == []
  {
    o := new Notifier();
    var i := 0;
    while i < |events|
      invariant 0 <= i <= |events| && fresh(o) && o.Valid() && o.S() == RunOf(events[..i])
    {
      assert events[..i + 1][..i] == events[..i];
      PrefixUsable(events, i + 1);
      if o.refs > 0 {
        match events[i] {
          case Does(a) =>
            o.DoOne(a);
            o.Dispose();
          case Idle(handlers) =>
            if o.notifyId != 0 {
              o.DeferredNotify(o.notifyId, handlers);
            }
        }
      }
      i := i + 1;
    }
    assert events[..i] == events;
    GoneQueuesNothing(events);
  }
}
