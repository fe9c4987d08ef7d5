/**
 The idempotency middleware. Concurrent requests share a store of expiring keys,
 written by SETNX and DEL; a request's own progress is its program counter, and
 the requests interleave step by step. Times are in seconds.
 */
module Idempotency {
  import opened Text

  const TTL := 86_400 // 24 hours
  const MAX_ID_LENGTH := 255

  type RequestId = nat

  // ----- the store -----

  // key -> the time at which it expires
  type Keys = map<string, int>

  predicate Present(keys: Keys, key: string, now: int) {
    key in keys && now < keys[key]
  }

  function SetNx(keys: Keys, key: string, now: int): (Keys, bool) {
    if Present(keys, key, now) then (keys, false) else (keys[key := now + TTL], true)
  }

  function Del(keys: Keys, key: string): Keys {
    keys - {key}
  }

  class IdempotencyStore {
    var keys: Keys

    constructor ()
      ensures keys == map[]
    {
      keys := map[];
    }

    method Reserve(key: string, now: int) returns (reserved: bool)
      modifies this
      ensures (keys, reserved) == SetNx(old(keys), key, now)
      ensures reserved <==> !Present(old(keys), key, now)
      ensures Present(keys, key, now)
    {
      reserved := !(key in keys && now < keys[key]);
      if reserved {
        keys := keys[key := now + TTL];
      }
    }

    method Release(key: string)
      modifies this
      ensures keys == Del(old(keys), key)
      ensures forall now :: !Present(keys, key, now)
    {
      keys := keys - {key};
    }
  }

  // ----- key construction -----

  const WRITES := ["POST", "PUT", "PATCH"]

  function StoreKey(method_: string, path: string, id: string): string {
    "idempotency:" + method_ + ":" + path + ":" + id
  }

  // Every ':' of a route opens a parameter, right after a '/', and the route
  // does not end in '/'.
  predicate PlainRoute(path: string) {
    && path != ""
    && path[|path| - 1] != '/'
    && forall k | 0 <= k < |path| && path[k] == ':' :: k > 0 && path[k - 1] == '/'
  }

  // ----- the interleaving -----

  datatype Progress =
    | Arrived
    | Running(since: int)   // reserved the key, the handler has not returned
    | Failed(since: int)    // the handler failed, the key is about to be released
    | Rejected              // 409: the key was taken
    | Succeeded(since: int) // 2xx: the key stays
    | Freed                 // failed and released the key
    | Stuck(since: int)     // panicked, or failed with a DEL that did not reach the store

  datatype Request = Request(key: string, progress: Progress)

  datatype State = State(now: int, keys: Keys, requests: map<RequestId, Request>)

  datatype Event =
    | Arrive(id: RequestId, key: string)
    | Reserve(id: RequestId)
    | HandlerSucceeds(id: RequestId)
    | HandlerFails(id: RequestId)
    | HandlerPanics(id: RequestId) // recovered outside the middleware: no release
    | Release(id: RequestId)
    | ReleaseLost(id: RequestId)
    | Tick(seconds: nat)

  predicate Enabled(s: State, e: Event) {
    match e
    case Arrive(id, _) => id !in s.requests
    case Reserve(id) => id in s.requests && s.requests[id].progress.Arrived?
    case HandlerSucceeds(id) => id in s.requests && s.requests[id].progress.Running?
    case HandlerFails(id) => id in s.requests && s.requests[id].progress.Running?
    case HandlerPanics(id) => id in s.requests && s.requests[id].progress.Running?
    case Release(id) => id in s.requests && s.requests[id].progress.Failed?
    case ReleaseLost(id) => id in s.requests && s.requests[id].progress.Failed?
    case Tick(_) => true
  }

  function Advance(s: State, id: RequestId, p: Progress): State
    requires id in s.requests
  {
    s.(requests := s.requests[id := s.requests[id].(progress := p)])
  }

  function Next(s: State, e: Event): State
    requires Enabled(s, e)
  {
    match e
    case Arrive(id, key) => s.(requests := s.requests[id := Request(key, Arrived)])
    case Reserve(id) =>
      var (keys, reserved) := SetNx(s.keys, s.requests[id].key, s.now);
      Advance(s.(keys := keys), id, if reserved then Running(s.now) else Rejected)
    case HandlerSucceeds(id) => Advance(s, id, Succeeded(s.requests[id].progress.since))
    case HandlerFails(id) => Advance(s, id, Failed(s.requests[id].progress.since))
    case HandlerPanics(id) => Advance(s, id, Stuck(s.requests[id].progress.since))
    case Release(id) => Advance(s.(keys := Del(s.keys, s.requests[id].key)), id, Freed)
    case ReleaseLost(id) => Advance(s, id, Stuck(s.requests[id].progress.since))
    case Tick(seconds) => s.(now := s.now + seconds)
  }

  const START := State(0, map[], map[])

  // A request between its reservation and its response.
  predicate InFlight(p: Progress) {
    p.Running? || p.Failed?
  }

  // A request whose reservation has not been given back.
  predicate Holder(p: Progress) {
    InFlight(p) || p.Succeeded? || p.Stuck?
  }

  // The request timeout keeps every run shorter than the key's life.
  ghost predicate Timely(s: State) {
    forall id | id in s.requests && InFlight(s.requests[id].progress) :: s.now < s.requests[id].progress.since + TTL
  }

  // A run of the system all of whose states are timely.
  ghost predicate TimelyRun(s: State, events: seq<Event>)
    decreases events
  {
    && Timely(s)
    && (events != [] ==> Enabled(s, events[0]) && TimelyRun(Next(s, events[0]), events[1..]))
  }

  function RunOf(s: State, events: seq<Event>): State
    requires TimelyRun(s, events)
    decreases events
  {
    if events == [] then s else RunOf(Next(s, events[0]), events[1..])
  }

  ghost predicate Reachable(s: State) {
    exists events :: TimelyRun(START, events) && RunOf(START, events) == s
  }

  // ----- the invariant -----

  // A held key is present until its holder's window closes.
  ghost predicate Backed(s: State, id: RequestId)
    requires id in s.requests
  {
    var r := s.requests[id];
    Holder(r.progress) ==>
      && r.progress.since <= s.now
      && (s.now < r.progress.since + TTL ==> r.key in s.keys && s.keys[r.key] == r.progress.since + TTL)
  }

  // Two holders of one key have windows that do not meet.
  ghost predicate Apart(s: State, x: RequestId, y: RequestId)
    requires x in s.requests && y in s.requests
  {
    var p, q := s.requests[x], s.requests[y];
    p.key == q.key && Holder(p.progress) && Holder(q.progress) ==>
      p.progress.since + TTL <= q.progress.since || q.progress.since + TTL <= p.progress.since
  }

  ghost predicate Holds(s: State, id: RequestId, key: string, until: int) {
    && id in s.requests
    && s.requests[id].key == key
    && Holder(s.requests[id].progress)
    && s.requests[id].progress.since + TTL == until
  }

  // Every key that is present was put there by a holder.
  ghost predicate Explained(s: State, key: string)
    requires key in s.keys
  {
    exists id :: Holds(s, id, key, s.keys[key])
  }

  ghost predicate Inv(s: State) {
    && (forall id | id in s.requests :: Backed(s, id))
    && (forall x, y | x in s.requests && y in s.requests && x != y :: Apart(s, x, y))
    && (forall key | key in s.keys :: Explained(s, key))
  }

  lemma KeysStayExplained(s: State, e: Event)
    requires Inv(s) && Enabled(s, e)
    ensures var t := Next(s, e); forall key | key in t.keys :: Explained(t, key)
  {
    var t := Next(s, e);
    forall key | key in t.keys
      ensures Explained(t, key)
    {
      if e.Reserve? && t.requests[e.id].progress.Running? && key == t.requests[e.id].key {
        assert Holds(t, e.id, key, t.keys[key]);
      } else {
        assert Explained(s, key);
        var x :| Holds(s, x, key, s.keys[key]);
        assert Holds(t, x, key, t.keys[key]);
      }
    }
  }

  lemma ReserveKeeps(s: State, id: RequestId)
    requires Inv(s) && Enabled(s, Reserve(id))
    ensures Inv(Next(s, Reserve(id)))
  {
    var t := Next(s, Reserve(id));
    KeysStayExplained(s, Reserve(id));
    forall x | x in t.requests
      ensures Backed(t, x)
    {
      assert Backed(s, x);
    }
    forall x, y | x in t.requests && y in t.requests && x != y
      ensures Apart(t, x, y)
    {
      assert Apart(s, x, y) && Backed(s, x) && Backed(s, y);
    }
  }

  lemma ReleaseKeeps(s: State, id: RequestId)
    requires Inv(s) && Timely(s) && Enabled(s, Release(id))
    ensures Inv(Next(s, Release(id)))
  {
    var t := Next(s, Release(id));
    KeysStayExplained(s, Release(id));
    forall x | x in t.requests
      ensures Backed(t, x)
    {
      assert Backed(s, x) && Backed(s, id);
      assert x != id ==> Apart(s, x, id);
    }
    forall x, y | x in t.requests && y in t.requests && x != y
      ensures Apart(t, x, y)
    {
      assert Apart(s, x, y);
    }
  }

  lemma NextKeeps(s: State, e: Event)
    requires Inv(s) && Timely(s) && Enabled(s, e)
    ensures Inv(Next(s, e))
  {
    if e.Reserve? {
      ReserveKeeps(s, e.id);
    } else if e.Release? {
      ReleaseKeeps(s, e.id);
    } else {
      var t := Next(s, e);
      KeysStayExplained(s, e);
      forall x | x in t.requests
        ensures Backed(t, x)
      {
        assert x in s.requests ==> Backed(s, x);
      }
      forall x, y | x in t.requests && y in t.requests && x != y
        ensures Apart(t, x, y)
      {
        assert x in s.requests && y in s.requests ==> Apart(s, x, y);
      }
    }
  }

  lemma {:induction false} RunKeeps(s: State, events: seq<Event>)
    requires Inv(s) && TimelyRun(s, events)
    ensures Inv(RunOf(s, events)) && Timely(RunOf(s, events))
    decreases events
  {
    if events != [] {
      NextKeeps(s, events[0]);
      RunKeeps(Next(s, events[0]), events[1..]);
    }
  }

  lemma ReachableHolds(s: State)
    requires Reachable(s)
    ensures Inv(s) && Timely(s)
  {
    var events :| TimelyRun(START, events) && RunOf(START, events) == s;
    RunKeeps(START, events);
  }

  lemma {:induction false} RunExtends(s: State, events: seq<Event>, e: Event)
    requires TimelyRun(s, events) && Enabled(RunOf(s, events), e) && Timely(Next(RunOf(s, events), e))
    ensures TimelyRun(s, events + [e]) && RunOf(s, events + [e]) == Next(RunOf(s, events), e)
    decreases events
  {
    var longer := events + [e];
    if events == [] {
      assert longer[0] == e && longer[1..] == [];
    } else {
      assert longer[0] == events[0] && longer[1..] == events[1..] + [e];
      RunExtends(Next(s, events[0]), events[1..], e);
    }
    hide Next, Timely, Enabled;
  }

  // The reachable states are the start and what timely events make of reachable states.
  lemma ReachableNext(s: State, e: Event)
    ensures Reachable(START)
    ensures Reachable(s) && Enabled(s, e) && Timely(Next(s, e)) ==> Reachable(Next(s, e))
  {
    assert TimelyRun(START, []) && RunOf(START, []) == START;
    if Reachable(s) && Enabled(s, e) && Timely(Next(s, e)) {
      var events :| TimelyRun(START, events) && RunOf(START, events) == s;
      RunExtends(START, events, e);
      assert TimelyRun(START, events + [e]);
    }
  }

  // ----- theorems -----

  // For one key at most one handler is at work at a time.
  lemma OneHandlerPerKey(s: State, x: RequestId, y: RequestId)
    requires Reachable(s) && x in s.requests && y in s.requests
    requires s.requests[x].key == s.requests[y].key
    requires InFlight(s.requests[x].progress) && InFlight(s.requests[y].progress)
    ensures x == y
  {
    ReachableHolds(s);
    assert Backed(s, x) && Backed(s, y);
    assert x != y ==> Apart(s, x, y);
  }

  // Two successes of one key were reserved at least a whole TTL apart.
  lemma OneSuccessPerWindow(s: State, x: RequestId, y: RequestId)
    requires Reachable(s) && x in s.requests && y in s.requests && x != y
    requires s.requests[x].key == s.requests[y].key
    requires s.requests[x].progress.Succeeded? && s.requests[y].progress.Succeeded?
    ensures var p, q := s.requests[x].progress.since, s.requests[y].progress.since; p + TTL <= q || q + TTL <= p
  {
    ReachableHolds(s);
    assert Apart(s, x, y);
  }

  // Some request still holds the key: it is being served, it succeeded, or it
  // could not give the key back, and its window has not closed.
  predicate Open(s: State, id: RequestId, key: string) {
    && id in s.requests
    && s.requests[id].key == key
    && Holder(s.requests[id].progress)
    && s.now < s.requests[id].progress.since + TTL
  }

  ghost predicate OpenWindow(s: State, key: string) {
    exists id :: Open(s, id, key)
  }

  // A retry reaches the handler exactly when nobody's window is open.
  lemma RetryAdmittedIff(s: State, id: RequestId)
    requires Reachable(s) && Enabled(s, Reserve(id))
    ensures Next(s, Reserve(id)).requests[id].progress.Running? <==> !OpenWindow(s, s.requests[id].key)
  {
    ReachableHolds(s);
    var key := s.requests[id].key;
    if Present(s.keys, key, s.now) {
      assert Explained(s, key);
      var x :| Holds(s, x, key, s.keys[key]);
      assert Open(s, x, key);
    }
    if OpenWindow(s, key) {
      var x :| Open(s, x, key);
      assert Backed(s, x);
    }
  }

  // A failed run that gave its key back blocks nobody: the next request with the
  // key gets in.
  lemma ReleaseFreesTheKey(s: State, id: RequestId, later: RequestId)
    requires Reachable(s) && Enabled(s, Release(id)) && Enabled(s, Reserve(later))
    requires s.requests[later].key == s.requests[id].key
    ensures Next(Next(s, Release(id)), Reserve(later)).requests[later].progress.Running?
    ensures !OpenWindow(Next(s, Release(id)), s.requests[id].key)
  {
    ReachableHolds(s);
    var t, key := Next(s, Release(id)), s.requests[id].key;
    NextKeeps(s, Release(id));
    forall x | x in t.requests
      ensures !Open(t, x, key)
    {
      assert Backed(t, x);
    }
  }

  // What the timeout is for. Suppose time passes with no bound. A second handler
  // starts beside one still at work exactly when the first has outlived its key.
  lemma SecondHandlerIff(s: State, wait: nat, x: RequestId, y: RequestId)
    requires Reachable(s) && x in s.requests && InFlight(s.requests[x].progress)
    requires Enabled(s, Reserve(y)) && s.requests[y].key == s.requests[x].key
    ensures var t := Next(Next(s, Tick(wait)), Reserve(y));
            InFlight(t.requests[x].progress) && InFlight(t.requests[y].progress)
            <==> s.requests[x].progress.since + TTL <= s.now + wait
  {
    ReachableHolds(s);
    var key := s.requests[x].key;
    assert Backed(s, x);
  }

  // And DEL is unconditional: if the slow request then fails, it releases the key
  // that `y` has taken over, and a third request starts beside `y`. That happens
  // exactly when the slow request has outlived its key; otherwise `y` never starts.
  lemma ThirdHandlerIff(s: State, wait: nat, x: RequestId, y: RequestId, z: RequestId)
    requires Reachable(s) && x in s.requests && s.requests[x].progress.Running?
    requires Enabled(s, Reserve(y)) && Enabled(s, Reserve(z)) && y != z
    requires s.requests[x].key == s.requests[y].key == s.requests[z].key
    ensures var late := Next(Next(s, Tick(wait)), Reserve(y));
            var released := Next(Next(late, HandlerFails(x)), Release(x));
            var t := Next(released, Reserve(z));
            && t.requests[z].progress.Running?
            && (t.requests[y].progress.Running? <==> s.requests[x].progress.since + TTL <= s.now + wait)
            && (t.requests[y].progress.Rejected? <==> s.now + wait < s.requests[x].progress.since + TTL)
  {
    ReachableHolds(s);
    assert Backed(s, x);
  }

  // ----- one request, start to end -----

  datatype Outcome = Returned(failed: bool, status: int) | Panicked

  datatype Response = BadRequest | Conflict | FromHandler(outcome: Outcome) | ReleaseError

  predicate ValidId(id: string) {
    0 < |id| <= MAX_ID_LENGTH
  }

  predicate SentSuccess(o: Outcome) {
    o.Returned? && !o.failed && 200 <= o.status <= 299
  }

  // The handler wrote a response of its own, and it reports a failure.
  predicate SentFailure(o: Outcome) {
    o.Returned? && !o.failed && !(200 <= o.status <= 299)
  }

  // The middleware around one handler run, with no other request in between.
  // `releaseLost` says whether the DEL would fail.
  method Serve(store: IdempotencyStore, verb: string, route: string, header: string, now: int, handler: Outcome,
               releaseLost: bool)
    returns (ran: bool, response: Response)
    modifies store
    ensures verb !in WRITES ==> ran && store.keys == old(store.keys) && response == FromHandler(handler)
    ensures verb in WRITES && !(1 <= |TrimSpace(header)| <= 255) ==>
              !ran && response == BadRequest && store.keys == old(store.keys)
    ensures verb in WRITES && 1 <= |TrimSpace(header)| <= 255 ==>
              var key := StoreKey(verb, route, TrimSpace(header));
              var taken := key in old(store.keys) && now < old(store.keys)[key];
              && ran == !taken
              && (taken ==> response == Conflict && store.keys == old(store.keys))
              // the client gets the handler's own answer, unless the key of a failed write
              // could not be given back
              && (!taken ==> response == if releaseLost && SentFailure(handler) then ReleaseError else FromHandler(handler))
              // the key stays taken, for the whole time, exactly after a success, a panic or
              // a lost release
              && (!taken ==> (key in store.keys <==> SentSuccess(handler) || handler.Panicked? || releaseLost))
              && (!taken && key in store.keys ==> store.keys[key] == now + 24 * 60 * 60)
              && (forall other | other != key :: other in store.keys <==> other in old(store.keys))
              && (forall other | other != key && other in store.keys :: store.keys[other] == old(store.keys)[other])
  {
    if !(verb == "POST" || verb == "PUT" || verb == "PATCH") {
      return true, FromHandler(handler);
    }
    var id := TrimSpace(header);
    if id == "" || |id| > MAX_ID_LENGTH {
      return false, BadRequest;
    }
    var key := StoreKey(verb, route, id);
    var reserved := store.Reserve(key, now);
    if !reserved {
      return false, Conflict;
    }
    ran, response := true, FromHandler(handler);
    if handler.Returned? && (handler.failed || handler.status < 200 || handler.status >= 300) {
      if !releaseLost {
        store.Release(key);
      } else if !handler.failed {
        response := ReleaseError;
      }
    }
  }

  // The steps of the machine for one request that meets no other.
  function Alone(s: State, id: RequestId, key: string, handler: Outcome, releaseLost: bool): State
    requires id !in s.requests
  {
    var reserved := Next(Next(s, Arrive(id, key)), Reserve(id));
    if reserved.requests[id].progress.Rejected? then reserved
    else if handler.Panicked? then Next(reserved, HandlerPanics(id))
    else if SentSuccess(handler) then Next(reserved, HandlerSucceeds(id))
    else Next(Next(reserved, HandlerFails(id)), if releaseLost then ReleaseLost(id) else Release(id))
  }

  // They leave the keys as Serve does, and the request ends.
  lemma AloneDoesTheSame(s: State, id: RequestId, key: string, handler: Outcome, releaseLost: bool)
    requires id !in s.requests
    ensures var t := Alone(s, id, key, handler, releaseLost);
            var taken := key in s.keys && s.now < s.keys[key];
            && t.now == s.now
            && t.requests.Keys == s.requests.Keys + {id} && (forall x | x in s.requests :: t.requests[x] == s.requests[x])
            && t.requests[id].key == key && !InFlight(t.requests[id].progress) && !t.requests[id].progress.Arrived?
            && (t.requests[id].progress.Rejected? <==> taken)
            && t.keys == if taken then s.keys
                         else if SentSuccess(handler) || handler.Panicked? || releaseLost then s.keys[key := s.now + TTL]
                         else s.keys - {key}
  {
    assert s.keys[key := s.now + TTL] - {key} == s.keys - {key};
  }

  // ----- keys of different requests -----

  lemma NotShorter(p: string, i: string, q: string, j: string)
    requires PlainRoute(p) && PlainRoute(q) && p + ":" + i == q + ":" + j
    ensures |p| >= |q|
  {
    var whole := p + ":" + i;
    assert whole == q + ":" + j;
    assert whole[|p|] == ':' && whole[|p| - 1] == p[|p| - 1];
    assert forall k | 0 <= k < |q| :: whole[k] == q[k];
  }

  lemma SamePathAndId(p: string, i: string, q: string, j: string)
    requires PlainRoute(p) && PlainRoute(q) && p + ":" + i == q + ":" + j
    ensures p == q && i == j
  {
    NotShorter(p, i, q, j);
    NotShorter(q, j, p, i);
    var whole := p + ":" + i;
    assert whole == q + ":" + j;
    assert p == whole[..|p|] && q == whole[..|q|];
    assert i == whole[|p| + 1..] && j == whole[|q| + 1..];
  }

  lemma StripPrefix(head: string, a: string, b: string)
    requires head + a == head + b
    ensures a == b
  {
    assert a == (head + a)[|head|..] && b == (head + b)[|head|..];
  }

  // Write requests of plain routes share a key only if they agree on method,
  // route and id.
  lemma KeysAreDistinct(verb: string, p: string, i: string, verb': string, q: string, j: string)
    requires verb in WRITES && verb' in WRITES && PlainRoute(p) && PlainRoute(q)
    requires StoreKey(verb, p, i) == StoreKey(verb', q, j)
    ensures verb == verb' && p == q && i == j
  {
    var left, right := StoreKey(verb, p, i), StoreKey(verb', q, j);
    assert left[13] == verb[1] && right[13] == verb'[1];
    assert verb == verb';
    assert left == ("idempotency:" + verb + ":") + (p + ":" + i);
    assert right == ("idempotency:" + verb + ":") + (q + ":" + j);
    StripPrefix("idempotency:" + verb + ":", p + ":" + i, q + ":" + j);
    SamePathAndId(p, i, q, j);
  }

  // An id as the middleware passes it on.
  predicate RealId(id: string) {
    ValidId(id) && !IsSpace(id[0]) && !IsSpace(id[|id| - 1])
  }

  lemma TrimmedIsReal(header: string)
    ensures ValidId(TrimSpace(header)) <==> RealId(TrimSpace(header))
    ensures RealId(header) ==> TrimSpace(header) == header
  {
  }

  // p followed by ':' begins q, and the rest of q leaves room for an id after it and
  // does not begin with a space.
  predicate Nested(p: string, q: string) {
    && p + ":" <= q
    && |q| - |p| - 1 <= MAX_ID_LENGTH - 2
    && (|q| > |p| + 1 ==> !IsSpace(q[|p| + 1]))
  }

  // Some headers that the middleware lets through give two different routes the same
  // key exactly when one is nested in the other.
  lemma RoutesCollideIff(verb: string, p: string, q: string)
    requires p != q
    ensures (exists h, g :: ValidId(TrimSpace(h)) && ValidId(TrimSpace(g))
                            && StoreKey(verb, p, TrimSpace(h)) == StoreKey(verb, q, TrimSpace(g)))
            <==> Nested(p, q) || Nested(q, p)
  {
    hide StoreKey, TrimSpace, Nested, ValidId, RealId;
    if Nested(p, q) {
      CollideWhenNested(verb, p, q);
    }
    if Nested(q, p) {
      CollideWhenNested(verb, q, p);
    }
    forall h, g | ValidId(TrimSpace(h)) && ValidId(TrimSpace(g)) && StoreKey(verb, p, TrimSpace(h)) == StoreKey(verb, q, TrimSpace(g))
      ensures Nested(p, q) || Nested(q, p)
    {
      TrimmedIsReal(h);
      TrimmedIsReal(g);
      EitherNested(verb, p, TrimSpace(h), q, TrimSpace(g));
    }
  }

  lemma EitherNested(verb: string, p: string, i: string, q: string, j: string)
    requires p != q && RealId(i) && RealId(j) && StoreKey(verb, p, i) == StoreKey(verb, q, j)
    ensures Nested(p, q) || Nested(q, p)
  {
    assert StoreKey(verb, p, i) == ("idempotency:" + verb + ":") + (p + ":" + i);
    assert StoreKey(verb, q, j) == ("idempotency:" + verb + ":") + (q + ":" + j);
    StripPrefix("idempotency:" + verb + ":", p + ":" + i, q + ":" + j);
    if |p| <= |q| {
      NestedWhenCollide(p, i, q, j);
    } else {
      NestedWhenCollide(q, j, p, i);
    }
  }

  lemma CollideWhenNested(verb: string, p: string, q: string)
    requires Nested(p, q)
    ensures exists h, g :: ValidId(TrimSpace(h)) && ValidId(TrimSpace(g))
                           && StoreKey(verb, p, TrimSpace(h)) == StoreKey(verb, q, TrimSpace(g))
    ensures exists h, g :: ValidId(TrimSpace(h)) && ValidId(TrimSpace(g))
                           && StoreKey(verb, q, TrimSpace(h)) == StoreKey(verb, p, TrimSpace(g))
  {
    var tail := q[|p| + 1..];
    var id := tail + ":x";
    assert q == p + ":" + tail;
    assert id[0] == if tail == "" then ':' else q[|p| + 1];
    assert id[|id| - 1] == 'x';
    assert RealId(id) && RealId("x");
    TrimmedIsReal(id);
    TrimmedIsReal("x");
    assert StoreKey(verb, p, id) == StoreKey(verb, q, "x");
    assert StoreKey(verb, p, TrimSpace(id)) == StoreKey(verb, q, TrimSpace("x"));
  }

  lemma NestedWhenCollide(p: string, i: string, q: string, j: string)
    requires p != q && |p| <= |q| && RealId(i) && RealId(j) && p + ":" + i == q + ":" + j
    ensures Nested(p, q)
  {
    var whole := p + ":" + i;
    assert whole == q + ":" + j;
    assert p == whole[..|p|] && q == whole[..|q|];
    assert |p| < |q|;
    assert p + ":" == whole[..|p| + 1] == q[..|p| + 1];
    assert |q| > |p| + 1 ==> q[|p| + 1] == whole[|p| + 1] == i[0];
  }
}
