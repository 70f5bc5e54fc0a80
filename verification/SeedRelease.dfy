/** Releasing the sealed seed of a Nitro deployment: `release_seed` in tools/nitro/aws_nitro.py.

The key policy and the two bucket objects are shared, every AWS call is one atomic step, and any number
of runs may interleave and stop anywhere.
 */
module SeedRelease {
  import opened Result

  /** Whom a bound policy lets decrypt: account, host role and PCRs. */
  type Request = nat
  type Token = nat

  /** `bound_policy` leaves out `PutKeyPolicy` and `ListGrants`, so a bound key never takes another policy and
      a run that lists its grants then is refused. */
  datatype Policy = Unbound | Bound(request: Request, context: Token) | Foreign

  /** A data key, encrypted under a context. */
  datatype Blob = Blob(context: Token, nonce: nat)

  datatype Store = Store(policy: Policy, seed: Option<Blob>, context: Option<Token>)

  /** What a run learns from outside: whether the key has grants, its random context, its data key. */
  datatype Answers = Answers(grants: bool, token: Token, nonce: nat)

  /** Where a run is, with its local variables. */
  datatype Worker =
    | Reading(request: Request)
    | CheckingSeed(context: Token)
    | CheckingContext(context: Token)
    | RepairingContext(context: Token)
    | CheckingGrants(request: Request)
    | RemovingSeed(request: Request)
    | RemovingContext(request: Request)
    | Binding(request: Request)
    | Generating(context: Token)
    | StoringContext(context: Token, blob: Blob)
    | StoringSeed(context: Token, blob: Blob)
    | Released
    | Refused

  /** One AWS call of one run. */
  function Act(s: Store, w: Worker, a: Answers): (Store, Worker) {
    match w
    case Reading(request) =>
      (s, match s.policy
          case Bound(request', c) => if request' == request then CheckingSeed(c) else Refused
          case Unbound => CheckingGrants(request)
          case Foreign => Refused)
    case CheckingSeed(c) => (s, if s.seed.Some? then CheckingContext(c) else Generating(c))
    case CheckingContext(c) => (s, if s.context.Some? then Released else RepairingContext(c))
    case RepairingContext(c) => (s.(context := Some(c)), Released)
    case CheckingGrants(request) =>
      (s, if a.grants || s.policy != Unbound then Refused else RemovingSeed(request))
    case RemovingSeed(request) => (s.(seed := None), RemovingContext(request))
    case RemovingContext(request) => (s.(context := None), Binding(request))
    case Binding(request) =>
      if s.policy == Unbound then (s.(policy := Bound(request, a.token)), Generating(a.token)) else (s, Refused)
    case Generating(c) =>
      (s, if s.policy.Bound? && s.policy.context != c then Refused else StoringContext(c, Blob(c, a.nonce)))
    case StoringContext(c, blob) => (s.(context := Some(c)), StoringSeed(c, blob))
    case StoringSeed(c, blob) => (s.(seed := Some(blob)), Released)
    case Released => (s, w)
    case Refused => (s, w)
  }

  datatype System = System(store: Store, workers: map<nat, Worker>)

  /** A run starts, makes its next call, or stops for good. */
  datatype Event = Start(id: nat, request: Request) | Call(id: nat, answers: Answers) | Crash(id: nat)

  function Next(s: System, e: Event): System {
    match e
    case Start(id, request) => if id in s.workers then s else s.(workers := s.workers[id := Reading(request)])
    case Call(id, a) =>
      if id !in s.workers then s
      else
        var (store, w) := Act(s.store, s.workers[id], a);
        System(store, s.workers[id := w])
    case Crash(id) => s.(workers := s.workers - {id})
  }

  function Run(s: System, events: seq<Event>): System {
    if |events| == 0 then s else Next(Run(s, events[..|events| - 1]), events[|events| - 1])
  }

  // ----- Safety under every interleaving.

  predicate HoldsContext(w: Worker) {
    w.CheckingSeed? || w.CheckingContext? || w.RepairingContext? || w.Generating? || w.StoringContext? || w.StoringSeed?
  }

  /** Any seed object was generated under `c` and any context object equals `c`. */
  predicate ObjectsUnder(s: Store, c: Token) {
    && (s.seed.Some? ==> s.seed.value.context == c)
    && (s.context.Some? ==> s.context.value == c)
  }

  ghost predicate WorkerOk(s: Store, w: Worker) {
    && (HoldsContext(w) ==> s.policy.Bound? && w.context == s.policy.context)
    && (w.StoringContext? || w.StoringSeed? ==> w.blob.context == w.context)
    && (s.policy == Unbound && (w.RemovingContext? || w.Binding?) ==> s.seed == None)
    && (s.policy == Unbound && w.Binding? ==> s.context == None)
  }

  ghost predicate Safe(s: System) {
    && (s.store.policy.Bound? ==> ObjectsUnder(s.store, s.store.policy.context))
    && forall id :: id in s.workers ==> WorkerOk(s.store, s.workers[id])
  }

  lemma {:induction false} ActKeepsWorkers(s: Store, w: Worker, a: Answers, other: Worker)
    requires WorkerOk(s, w) && WorkerOk(s, other)
    requires s.policy.Bound? ==> ObjectsUnder(s, s.policy.context)
    ensures var (s', w') := Act(s, w, a);
            WorkerOk(s', w') && WorkerOk(s', other) && (s'.policy.Bound? ==> ObjectsUnder(s', s'.policy.context))
  {
  }

  lemma {:induction false} NextKeepsSafe(s: System, e: Event)
    requires Safe(s)
    ensures Safe(Next(s, e))
  {
    if e.Call? && e.id in s.workers {
      hide Act, WorkerOk;
      var w := s.workers[e.id];
      var (store, w') := Act(s.store, w, e.answers);
      ActKeepsWorkers(s.store, w, e.answers, w);
      forall id | id in s.workers && id != e.id ensures WorkerOk(store, s.workers[id]) {
        ActKeepsWorkers(s.store, w, e.answers, s.workers[id]);
      }
    }
  }

  lemma {:induction false} RunKeepsSafe(s: System, events: seq<Event>)
    requires Safe(s)
    ensures Safe(Run(s, events))
  {
    if |events| > 0 {
      RunKeepsSafe(s, events[..|events| - 1]);
      NextKeepsSafe(Run(s, events[..|events| - 1]), events[|events| - 1]);
    }
  }

  /** Whatever the bucket held before, once the key is bound under `c` every object is under `c`. */
  lemma {:induction false} BoundObjects(store: Store, events: seq<Event>)
    requires store.policy == Unbound
    ensures var s := Run(System(store, map[]), events).store;
            s.policy.Bound? ==> ObjectsUnder(s, s.policy.context)
  {
    RunKeepsSafe(System(store, map[]), events);
  }

  /** A bound policy never changes. */
  lemma {:induction false} BindIsForever(s: System, events: seq<Event>)
    requires s.store.policy.Bound?
    ensures Run(s, events).store.policy == s.store.policy
  {
    if |events| > 0 {
      BindIsForever(s, events[..|events| - 1]);
    }
  }

  // ----- When a finished release stays.

  /** The released state: the enclave finds both objects. */
  predicate Complete(s: Store) {
    s.policy.Bound? && s.seed.Some? && s.context == Some(s.policy.context)
  }

  /** A run that passed its checks before the release finished and will still overwrite it. */
  ghost predicate Stale(s: Store, w: Worker) {
    || w.RemovingSeed? || w.RemovingContext? || w.Generating?
    || ((w.StoringContext? || w.StoringSeed?) && s.seed != Some(w.blob))
  }

  ghost predicate NoneStale(s: System) {
    forall id :: id in s.workers ==> !Stale(s.store, s.workers[id])
  }

  lemma {:induction false} FreshActs(s: Store, w: Worker, a: Answers)
    requires Complete(s) && WorkerOk(s, w) && !Stale(s, w)
    ensures Act(s, w, a).0 == s && !Stale(s, Act(s, w, a).1)
  {
  }

  lemma {:induction false} NoneStaleKeeps(s: System, events: seq<Event>)
    requires Safe(s) && Complete(s.store) && NoneStale(s)
    ensures Run(s, events).store == s.store && NoneStale(Run(s, events))
  {
    if |events| > 0 {
      hide Act, WorkerOk, Stale;
      var before, e := Run(s, events[..|events| - 1]), events[|events| - 1];
      NoneStaleKeeps(s, events[..|events| - 1]);
      RunKeepsSafe(s, events[..|events| - 1]);
      if e.Call? && e.id in before.workers {
        FreshActs(before.store, before.workers[e.id], e.answers);
      } else if e.Start? {
        NewIsFresh(s.store, e.request);
      }
    }
  }

  lemma {:induction false} NewIsFresh(s: Store, request: Request)
    ensures !Stale(s, Reading(request))
  {
  }

  /** The calls with which a stale run changes a finished release. */
  function Undoing(s: Store, id: nat, w: Worker): seq<Event> {
    var call := Call(id, Answers(false, 0, if s.seed.Some? then s.seed.value.nonce + 1 else 0));
    if w.StoringContext? then [call, call]
    else if w.Generating? then [call, call, call]
    else [call]
  }

  lemma {:induction false} StaleUndoes(s: System, id: nat)
    requires Safe(s) && Complete(s.store) && id in s.workers && Stale(s.store, s.workers[id])
    ensures Run(s, Undoing(s.store, id, s.workers[id])).store != s.store
  {
    var call := Undoing(s.store, id, s.workers[id])[0];
    RunFew(s, call);
  }

  lemma {:induction false} RunFew(s: System, e: Event)
    ensures Run(s, [e]) == Next(s, e)
    ensures Run(s, [e, e]) == Next(Next(s, e), e)
    ensures Run(s, [e, e, e]) == Next(Next(Next(s, e), e), e)
  {
    assert [e][..0] == [] && [e, e][..1] == [e] && [e, e, e][..2] == [e, e];
  }

  /** A finished release survives every later interleaving exactly when no stale run is left. */
  lemma {:induction false} ReleaseStaysIffNoneStale(s: System)
    requires Safe(s) && Complete(s.store)
    ensures (forall events :: Run(s, events).store == s.store) <==> NoneStale(s)
  {
    if NoneStale(s) {
      forall events ensures Run(s, events).store == s.store {
        NoneStaleKeeps(s, events);
      }
    } else {
      var id :| id in s.workers && Stale(s.store, s.workers[id]);
      StaleUndoes(s, id);
    }
  }

  // ----- One run at a time.

  /** What a run that is not interrupted leaves, or nothing when it refuses. */
  function AfterRelease(s: Store, request: Request, a: Answers): Option<Store> {
    if s.policy.Bound? && s.policy.request == request then
      var c := s.policy.context;
      Some(if s.seed.Some? then (if s.context.Some? then s else s.(context := Some(c)))
           else Store(s.policy, Some(Blob(c, a.nonce)), Some(c)))
    else if s.policy == Unbound && !a.grants then
      Some(Store(Bound(request, a.token), Some(Blob(a.token, a.nonce)), Some(a.token)))
    else None
  }

  class Deployment {
    var store: Store

    constructor (store: Store)
      ensures this.store == store
    {
      this.store := store;
    }

    /** `release_seed`. A bound policy and a seed under it are kept, a missing object is put back, and a
        refusal changes nothing. */
    method ReleaseSeed(request: Request, a: Answers) returns (r: Result<(), string>)
      modifies this
      ensures r.Ok? <==> AfterRelease(old(store), request, a).Some?
      ensures r.Ok? ==> Some(store) == AfterRelease(old(store), request, a)
      ensures r.Ok? <==>
                || (old(store.policy).Bound? && old(store.policy).request == request)
                || (old(store.policy) == Unbound && !a.grants)
      ensures r.Ok? ==>
                && store.policy.Bound? && store.policy.request == request
                && store.seed.Some? && store.context.Some?
      ensures old(store.policy).Bound? ==> store.policy == old(store.policy)
      ensures old(store.policy).Bound? && old(store.seed).Some? ==>
                && store.seed == old(store.seed)
                && (old(store.context).Some? ==> store.context == old(store.context))
                && (r.Ok? && old(store.context).None? ==> store.context == Some(store.policy.context))
      ensures r.Ok? && (old(store.policy) == Unbound || old(store.seed).None?) ==>
                store.seed == Some(Blob(store.policy.context, a.nonce)) && store.context == Some(store.policy.context)
      ensures r.Ok? && old(store.policy) == Unbound ==> store.policy.context == a.token
      ensures r.Err? ==> store == old(store)
    {
      var current := store.policy;
      var seedContext;
      if current.Bound? && current.request == request {
        seedContext := current.context;
        if store.seed.Some? {
          if store.context.None? {
            store := store.(context := Some(seedContext));
          }
          return Ok(());
        }
      } else if current == Unbound {
        if a.grants {
          return Err("The KMS key carries grants");
        }
        store := store.(seed := None);
        store := store.(context := None);
        seedContext := a.token;
        store := store.(policy := Bound(request, seedContext));
      } else {
        return Err("The KMS key is bound to another policy");
      }
      var blob := Blob(seedContext, a.nonce);
      store := store.(context := Some(seedContext));
      store := store.(seed := Some(blob));
      r := Ok(());
    }
  }

  /** A completed release is idempotent, and refuses any other request. */
  lemma {:induction false} ReleaseIsIdempotent(s: Store, request: Request, other: Request, a: Answers, b: Answers)
    requires AfterRelease(s, request, a).Some? && (s.policy.Bound? ==> ObjectsUnder(s, s.policy.context))
    ensures var done := AfterRelease(s, request, a).value;
            && Complete(done) && done.policy.request == request
            && AfterRelease(done, request, b) == Some(done)
            && (other != request ==> AfterRelease(done, other, b) == None)
  {
  }

  /** The store and the run after `k` calls of one run alone. */
  function Alone(s: Store, w: Worker, a: Answers, k: nat): (Store, Worker)
    decreases k
  {
    if k == 0 then (s, w) else var before := Alone(s, w, a, k - 1); Act(before.0, before.1, a)
  }

  /** Eight calls finish a run, with the result of `AfterRelease`. */
  lemma {:induction false} AloneIsAfterRelease(s: Store, request: Request, a: Answers)
    ensures var (s', w') := Alone(s, Reading(request), a, 8);
            match AfterRelease(s, request, a)
            case Some(done) => s' == done && w' == Released
            case None => s' == s && w' == Refused
  {
    hide Alone;
    var w := Reading(request);
    AloneZero(s, w, a);
    AloneStep(s, w, a, 0);
    AloneStep(s, w, a, 1);
    AloneStep(s, w, a, 2);
    AloneStep(s, w, a, 3);
    AloneStep(s, w, a, 4);
    AloneStep(s, w, a, 5);
    AloneStep(s, w, a, 6);
    AloneStep(s, w, a, 7);
    if s.policy == Unbound && !a.grants {
      var c, bound := a.token, Bound(request, a.token);
      assert Alone(s, w, a, 3) == (s.(seed := None), RemovingContext(request));
      assert Alone(s, w, a, 5) == (Store(bound, None, None), Generating(c));
      assert Alone(s, w, a, 7) == (Store(bound, None, Some(c)), StoringSeed(c, Blob(c, a.nonce)));
    } else {
      assert Alone(s, w, a, 5).1 == Released || Alone(s, w, a, 5).1 == Refused;
    }
  }

  lemma {:induction false} AloneZero(s: Store, w: Worker, a: Answers)
    ensures Alone(s, w, a, 0) == (s, w)
  {
  }

  lemma {:induction false} AloneStep(s: Store, w: Worker, a: Answers, k: nat)
    ensures Alone(s, w, a, k + 1) == Act(Alone(s, w, a, k).0, Alone(s, w, a, k).1, a)
  {
  }

  // ----- Runs that overlap, and runs that stop.

  lemma {:induction false} RunConcat(s: System, a: seq<Event>, b: seq<Event>)
    ensures Run(s, a + b) == Run(Run(s, a), b)
  {
    if |b| == 0 {
      assert a + b == a;
    } else {
      assert (a + b)[..|a + b| - 1] == a + b[..|b| - 1];
      RunConcat(s, a, b[..|b| - 1]);
    }
  }

  /** `k` calls of one run. */
  function Calls(id: nat, a: Answers, k: nat): seq<Event> {
    seq(k, _ => Call(id, a))
  }

  lemma {:induction false} CallsAreAlone(s: System, id: nat, a: Answers, k: nat)
    requires id in s.workers
    ensures var alone := Alone(s.store, s.workers[id], a, k);
            Run(s, Calls(id, a, k)) == System(alone.0, s.workers[id := alone.1])
    decreases k
  {
    hide Act;
    if k == 0 {
      assert s.workers[id := s.workers[id]] == s.workers;
    } else {
      assert Calls(id, a, k)[..k - 1] == Calls(id, a, k - 1);
      CallsAreAlone(s, id, a, k - 1);
    }
  }

  /** Two runs start, run 1 reads the unbound policy and lists the grants, and run 0 runs to its end. */
  function OverlappingStart(request: Request, other: Request, a: Answers): seq<Event> {
    [Start(0, request), Start(1, other)] + Calls(1, a, 2) + Calls(0, a, 8)
  }

  lemma {:induction false} ChecksBeforeBind(store: Store, request: Request, other: Request, a: Answers)
    requires store.policy == Unbound && !a.grants
    ensures Run(System(store, map[]), [Start(0, request), Start(1, other)] + Calls(1, a, 2))
            == System(store, map[0 := Reading(request), 1 := RemovingSeed(other)])
  {
    var s, e0, e1 := System(store, map[]), Start(0, request), Start(1, other);
    assert [e0][..0] == [] && [e0, e1][..1] == [e0];
    assert Run(s, [e0]) == System(store, map[0 := Reading(request)]);
    var started := System(store, map[0 := Reading(request), 1 := Reading(other)]);
    assert Run(s, [e0, e1]) == started;
    RunConcat(s, [e0, e1], Calls(1, a, 2));
    CallsAreAlone(started, 1, a, 2);
    AloneZero(store, Reading(other), a);
    AloneStep(store, Reading(other), a, 0);
    AloneStep(store, Reading(other), a, 1);
  }

  /** Whatever the bucket held, such an overlap finishes a release, and the next call of run 1 removes its
      seed. The key stays bound, so only another run can put a seed back. */
  lemma {:induction false} FinishedReleaseCanBeLost(
    store: Store, request: Request, other: Request, a: Answers, b: Answers)
    requires store.policy == Unbound && !a.grants
    ensures var s := Run(System(store, map[]), OverlappingStart(request, other, a));
            var t := Run(s, Calls(1, b, 1));
            && Complete(s.store) && !NoneStale(s)
            && t.store.policy == s.store.policy == Bound(request, a.token) && t.store.seed == None
  {
    hide Run, Alone;
    var start := System(store, map[]);
    var checked := System(store, map[0 := Reading(request), 1 := RemovingSeed(other)]);
    ChecksBeforeBind(store, request, other, a);
    RunConcat(start, [Start(0, request), Start(1, other)] + Calls(1, a, 2), Calls(0, a, 8));
    CallsAreAlone(checked, 0, a, 8);
    AloneIsAfterRelease(store, request, a);
    var s := Run(start, OverlappingStart(request, other, a));
    assert s.workers[1] == RemovingSeed(other);
    CallsAreAlone(s, 1, b, 1);
    AloneZero(s.store, s.workers[1], b);
    AloneStep(s.store, s.workers[1], b, 0);
  }

  /** After any interleaving and any crashes, a run for the bound request, or for any while the key is
      unbound, completes the release. */
  lemma {:induction false} InterleavedIsResumable(store: Store, events: seq<Event>, request: Request, b: Answers)
    requires store.policy == Unbound && !b.grants
    requires var policy := Run(System(store, map[]), events).store.policy;
             policy == Unbound || (policy.Bound? && policy.request == request)
    ensures var done := AfterRelease(Run(System(store, map[]), events).store, request, b);
            done.Some? && Complete(done.value) && done.value.policy.request == request
  {
    hide Run;
    BoundObjects(store, events);
  }

  /** Every run so far is for `request`. */
  ghost predicate OnlyFor(s: System, request: Request) {
    && (s.store.policy == Unbound || (s.store.policy.Bound? && s.store.policy.request == request))
    && forall id :: id in s.workers ==> WorkerFor(s.workers[id], request)
  }

  ghost predicate WorkerFor(w: Worker, request: Request) {
    w.Reading? || w.CheckingGrants? || w.RemovingSeed? || w.RemovingContext? || w.Binding? ==> w.request == request
  }

  lemma {:induction false} RunOnlyFor(s: System, events: seq<Event>, request: Request)
    requires OnlyFor(s, request)
    requires forall i :: 0 <= i < |events| && events[i].Start? ==> events[i].request == request
    ensures OnlyFor(Run(s, events), request)
  {
    if |events| > 0 {
      RunOnlyFor(s, events[..|events| - 1], request);
    }
  }

  /** So however many runs for one request overlapped and wherever they stopped, the next one completes. */
  lemma {:induction false} CrashIsResumable(store: Store, events: seq<Event>, request: Request, b: Answers)
    requires store.policy == Unbound && !b.grants
    requires forall i :: 0 <= i < |events| && events[i].Start? ==> events[i].request == request
    ensures var done := AfterRelease(Run(System(store, map[]), events).store, request, b);
            done.Some? && Complete(done.value) && done.value.policy.request == request
  {
    hide Run;
    RunOnlyFor(System(store, map[]), events, request);
    InterleavedIsResumable(store, events, request, b);
  }
}
