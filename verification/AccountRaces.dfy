/**
 Account requests that interleave in any way. A writing request loads the row and
 later stores what it made of it; any number of requests may be in between. The
 state also records what really happened: the passwords set and the revocations.
 */
module AccountRaces {
  import opened Outcomes
  import opened Text
  import opened Credentials

  type RequestId = nat

  datatype Pending = Pending(op: Op, loaded: Account)

  datatype State = State(row: Account, pending: map<RequestId, Pending>, past: seq<string>, revoked: nat)

  datatype Event = Load(id: RequestId, op: Op) | Store(id: RequestId)

  predicate Writes(op: Op) {
    !op.SignInOp? && !op.RefreshOp?
  }

  ghost predicate Enabled(s: State, e: Event) {
    match e
    case Load(id, op) => id !in s.pending && Writes(op)
    case Store(id) => id in s.pending && Writes(s.pending[id].op)
  }

  function Stored(s: State, id: RequestId): State
    requires id in s.pending && Writes(s.pending[id].op)
  {
    var op := s.pending[id].op;
    var (row, response) := StoreOver(s.row, s.pending[id].loaded, op);
    var past := if op.ChangePasswordOp? && response.Done? then s.past + [op.next] else s.past;
    State(row, s.pending - {id}, past, s.revoked + if response.Done? then Revoking(op) else 0)
  }

  function Next(s: State, e: Event): State
    requires Enabled(s, e)
  {
    match e
    case Load(id, op) => s.(pending := s.pending[id := Pending(op, s.row)])
    case Store(id) => Stored(s, id)
  }

  function Start(name: string, password: string, salt: nat): State {
    State(NewAccount(name, password, salt), map[], [password], 0)
  }

  ghost predicate IsRun(s: State, events: seq<Event>)
    decreases events
  {
    events != [] ==> Enabled(s, events[0]) && IsRun(Next(s, events[0]), events[1..])
  }

  function After(s: State, events: seq<Event>): State
    requires IsRun(s, events)
    decreases events
  {
    if events == [] then s else After(Next(s, events[0]), events[1..])
  }

  // ----- what every interleaving keeps -----

  // The hash is of a password that was really set, at some time.
  predicate Genuine(h: Hash, past: seq<string>) {
    h.Hashed? ==> h.password in past
  }

  predicate Plausible(a: Account, s: State) {
    && ValidRow(a)
    && a.tokenVersion <= 1 + s.revoked
    && Genuine(a.hash, s.past) && Genuine(a.previous0, s.past) && Genuine(a.previous1, s.past)
  }

  ghost predicate Inv(s: State) {
    && Plausible(s.row, s)
    && (forall id | id in s.pending :: Writes(s.pending[id].op) && Plausible(s.pending[id].loaded, s))
  }

  lemma StillPlausible(a: Account, s: State, t: State)
    requires Plausible(a, s) && s.past <= t.past && s.revoked <= t.revoked
    ensures Plausible(a, t)
  {
    assert forall p | p in s.past :: p in t.past;
  }

  lemma NextKeeps(s: State, e: Event)
    requires Inv(s) && Enabled(s, e)
    ensures Inv(Next(s, e))
  {
    if e.Store? {
      var t, p := Next(s, e), s.pending[e.id];
      StoredVersion(s.row, p.loaded, p.op);
      forall id | id in t.pending
        ensures Plausible(t.pending[id].loaded, t)
      {
        StillPlausible(s.pending[id].loaded, s, t);
      }
      StillPlausible(s.row, s, t);
      StillPlausible(p.loaded, s, t);
      StoredPlausible(s, e.id);
    }
  }

  lemma StoredPlausible(s: State, id: RequestId)
    requires Inv(s) && id in s.pending
    ensures Plausible(Stored(s, id).row, Stored(s, id))
  {
    var p, t := s.pending[id], Stored(s, id);
    StoredVersion(s.row, p.loaded, p.op);
    StillPlausible(s.row, s, t);
    StillPlausible(p.loaded, s, t);
    if p.op.ChangePasswordOp? && CanStore(p.loaded, p.op) {
      assert p.op.next in t.past by {
        assert t.past[|s.past|] == p.op.next;
      }
    }
    hide CanStore, ValidPattern, Reused;
  }

  lemma {:induction false} RunKeeps(s: State, events: seq<Event>)
    requires Inv(s) && IsRun(s, events)
    ensures Inv(After(s, events))
    decreases events
  {
    if events != [] {
      NextKeeps(s, events[0]);
      RunKeeps(Next(s, events[0]), events[1..]);
    }
  }

  // However requests interleave, a stored row stays within the column bounds, it
  // never remembers a password that was not set, and its version never runs ahead of
  // the revocations made.
  lemma NothingInvented(name: string, password: string, salt: nat, events: seq<Event>)
    requires IsRun(Start(name, password, salt), events)
    ensures var s := After(Start(name, password, salt), events);
            && ValidRow(s.row)
            && s.row.tokenVersion <= 1 + s.revoked
            && s.row.hash.password in s.past
  {
    assert Inv(Start(name, password, salt));
    RunKeeps(Start(name, password, salt), events);
  }

  // ----- what one store does, in any state an interleaving can reach -----

  // The version falls exactly when the request passes its checks on the row it has
  // loaded and that row's version, with the request's own revocation, is behind.
  lemma StoreFallsIff(s: State, id: RequestId)
    requires Inv(s) && id in s.pending
    ensures var p := s.pending[id];
            Stored(s, id).row.tokenVersion < s.row.tokenVersion
            <==> CanStore(p.loaded, p.op) && p.loaded.tokenVersion + Revoking(p.op) < s.row.tokenVersion
  {
    StoredVersion(s.row, s.pending[id].loaded, s.pending[id].op);
  }

  // After the store the row remembers the passwords really set exactly when the row
  // whose columns it now holds did: the one that was there if the checks failed, the
  // loaded one if they passed, and for a password change its two newest passwords.
  lemma StoreRecordsIff(s: State, id: RequestId)
    requires Inv(s) && id in s.pending && s.past != []
    ensures var p, t := s.pending[id], Stored(s, id);
            Recorded(t.past, t.row) <==>
              if !CanStore(p.loaded, p.op) then Recorded(s.past, s.row)
              else if p.op.ChangePasswordOp? then Remembers(p.loaded.hash, s.past, 0) && Remembers(p.loaded.previous0, s.past, 1)
              else Recorded(s.past, p.loaded)
  {
    var p, t := s.pending[id], Stored(s, id);
    StoredVersion(s.row, p.loaded, p.op);
    if CanStore(p.loaded, p.op) && p.op.ChangePasswordOp? {
      var n := |s.past|;
      assert t.past[n] == p.op.next && t.past[n - 1] == s.past[n - 1] && (n > 1 ==> t.past[n - 2] == s.past[n - 2]);
    }
  }

  // The store repeats one of the last three passwords exactly when it is a change
  // that passes its checks on the loaded row to a password really set so recently.
  lemma StoreRepeatsIff(s: State, id: RequestId)
    requires Inv(s) && id in s.pending && FourDistinct(s.past)
    ensures var p := s.pending[id];
            !FourDistinct(Stored(s, id).past)
            <==> p.op.ChangePasswordOp? && CanStore(p.loaded, p.op) && p.op.next in Last(s.past, 3)
  {
    var p := s.pending[id];
    StoredVersion(s.row, p.loaded, p.op);
    if p.op.ChangePasswordOp? {
      OneMoreDistinct(s.past, p.op.next);
    }
  }

  // ----- interleavings that are as good as a serial run -----

  // Every store finds the row as its request loaded it.
  ghost predicate NothingStale(s: State, events: seq<Event>)
    requires IsRun(s, events)
    decreases events
  {
    events != [] ==>
      && (events[0].Store? ==> s.pending[events[0].id].loaded == s.row)
      && NothingStale(Next(s, events[0]), events[1..])
  }

  // The operations in the order in which they are stored.
  function Order(s: State, events: seq<Event>): seq<Op>
    requires IsRun(s, events)
    decreases events
  {
    if events == [] then []
    else (if events[0].Store? then [s.pending[events[0].id].op] else []) + Order(Next(s, events[0]), events[1..])
  }

  lemma {:induction false} SerialRun(s: State, events: seq<Event>)
    requires Inv(s) && IsRun(s, events) && NothingStale(s, events)
    ensures var t, ops := After(s, events), Order(s, events);
            && t.row == Run(s.row, ops)
            && t.past == Passwords(s.past, s.row, ops)
            && t.revoked == s.revoked + Revocations(s.row, ops)
    decreases events
  {
    if events != [] {
      hide Step, StoreOver, Stored, Inv;
      var e, rest := events[0], events[1..];
      var t := Next(s, e);
      NextKeeps(s, e);
      SerialRun(t, rest);
      if e.Store? {
        FreshStore(s, e.id);
        assert t == Stored(s, e.id) && After(s, events) == After(t, rest);
        assert Order(s, events) == [s.pending[e.id].op] + Order(t, rest);
        RunCons(s.past, s.row, s.pending[e.id].op, Order(t, rest));
      } else {
        assert Order(s, events) == Order(t, rest);
      }
    }
  }

  lemma FreshStore(s: State, id: RequestId)
    requires id in s.pending && Writes(s.pending[id].op) && s.pending[id].loaded == s.row
    ensures var op, t := s.pending[id].op, Stored(s, id);
            var (row, response) := Step(s.row, op);
            && t.row == row
            && t.past == (if op.ChangePasswordOp? && response.Done? then s.past + [op.next] else s.past)
            && t.revoked == s.revoked + if Revokes(s.row, op) then 1 else 0
  {
  }

  lemma RunCons(past: seq<string>, row: Account, op: Op, ops: seq<Op>)
    ensures var (next, response) := Step(row, op);
            && Run(row, [op] + ops) == Run(next, ops)
            && Passwords(past, row, [op] + ops)
               == Passwords(if op.ChangePasswordOp? && response.Done? then past + [op.next] else past, next, ops)
            && Revocations(row, [op] + ops) == (if Revokes(row, op) then 1 else 0) + Revocations(next, ops)
  {
    assert ([op] + ops)[0] == op && ([op] + ops)[1..] == ops;
    hide Step;
  }

  // The interleaving in which each request is finished before the next begins.
  function Serially(ops: seq<Op>, id: RequestId): seq<Event> {
    if ops == [] then [] else [Load(id, ops[0]), Store(id)] + Serially(ops[1..], id)
  }

  lemma TwoEvents(s: State, a: Event, b: Event, rest: seq<Event>)
    requires Enabled(s, a) && Enabled(Next(s, a), b) && IsRun(Next(Next(s, a), b), rest)
    ensures var events, t := [a, b] + rest, Next(s, a);
            && IsRun(s, events)
            && After(s, events) == After(Next(t, b), rest)
            && (NothingStale(s, events) <==>
                  && (a.Store? ==> s.pending[a.id].loaded == s.row)
                  && (b.Store? ==> t.pending[b.id].loaded == t.row)
                  && NothingStale(Next(t, b), rest))
            && (a.Load? && b.Store? ==> Order(s, events) == [t.pending[b.id].op] + Order(Next(t, b), rest))
  {
    var t := Next(s, a);
    assert ([a, b] + rest)[1..] == [b] + rest && ([b] + rest)[1..] == rest;
    assert IsRun(t, [b] + rest);
    hide Next, Enabled;
  }

  // And there is one for every sequence of requests: it is a run without stale stores
  // that stores them in that order and leaves nothing pending.
  lemma {:induction false} EverySerialRun(s: State, ops: seq<Op>, id: RequestId)
    requires id !in s.pending && forall op | op in ops :: Writes(op)
    ensures var events := Serially(ops, id);
            && IsRun(s, events) && NothingStale(s, events)
            && Order(s, events) == ops
            && After(s, events).pending == s.pending
    decreases ops
  {
    if ops != [] {
      var a, b := Load(id, ops[0]), Store(id);
      assert ops[0] in ops;
      var loaded := Next(s, a);
      assert Enabled(loaded, b) && loaded.row == s.row && loaded.pending[id] == Pending(ops[0], s.row);
      var t := Next(loaded, b);
      assert t.pending == s.pending;
      EverySerialRun(t, ops[1..], id);
      TwoEvents(s, a, b, Serially(ops[1..], id));
      hide Step, StoreOver, Stored;
      assert [ops[0]] + ops[1..] == ops;
    }
  }

  // So without a stale store the serial results hold for the interleaving as well.
  lemma FreshStoresAreSafe(name: string, password: string, salt: nat, events: seq<Event>)
    requires IsRun(Start(name, password, salt), events) && NothingStale(Start(name, password, salt), events)
    ensures var s := After(Start(name, password, salt), events);
            FourDistinct(s.past) && Recorded(s.past, s.row) && s.row.tokenVersion == 1 + s.revoked
  {
    var s := Start(name, password, salt);
    assert Inv(s);
    SerialRun(s, events);
    RunRecords([password], s.row, Order(s, events));
    VersionCountsRevocations(s.row, Order(s, events));
  }
}
