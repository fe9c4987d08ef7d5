/**
 The transaction runner: up to ten attempts at a body, each rolled back or
 committed. The body's own memory survives a rollback, the tables do not.
 */
module Transactions {
  import opened Outcomes

  const MAX_TRIES := 10
  const MARKER := "could not serialize access"

  // strings.Contains
  predicate Contains(s: string, part: string) {
    exists i | 0 <= i <= |s| :: OccursAt(s, part, i)
  }

  predicate OccursAt(s: string, part: string, i: int) {
    0 <= i <= |s| - |part| && s[i..i + |part|] == part
  }

  // ----- what one attempt meets -----

  datatype Commit =
    | Committed
    | CommitFailed(text: string) // not applied
    | ReplyLost(text: string)    // applied, but the client sees an error

  datatype Attempt<!D> = Attempt(
    others: D -> D,           // what other clients committed since the last attempt
    begin: Option<string>,    // an error of BEGIN
    deadline: bool,           // ... which is a context deadline
    rollback: Option<string>, // an error of ROLLBACK, when there is one to do
    commit: Commit,
    giveUp: Option<string>)   // the context ends, or time runs out, before a retry

  datatype Ending = Success | Failed(text: string) | Panic

  // One run of the body: its memory, the transaction's tables when it ends, and how
  // it ends. After a panic the tables hold what was written up to there.
  datatype BodyRun<D, M> = BodyRun(memory: M, after: D, ending: Ending)

  // `seen` and `input` are the tables and the memory the last attempt started
  // from; `applied` counts the body runs that reached the tables, and `partial`
  // says whether one of them had panicked.
  datatype Outcome<D, M> = Outcome(
    db: D, memory: M, ending: Ending, tries: nat, applied: nat, partial: bool, seen: D, input: M)

  const BEGIN_FAILED := "could not begin transaction"
  const POOL_EXHAUSTED := " (possible pool exhaustion "
  const DEADLINE_EXCEEDED := "\U{2014} context deadline exceeded)"

  function BeginHead(deadline: bool): string {
    if deadline then BEGIN_FAILED + (POOL_EXHAUSTED + DEADLINE_EXCEEDED) else BEGIN_FAILED
  }

  function BeginText(text: string, deadline: bool): string {
    BeginHead(deadline) + ": " + text
  }

  // errors.Join of the body's error and the rollback's.
  function Joined(text: string, rollback: Option<string>): string {
    if rollback.Some? then text + "\n" + rollback.value else text
  }

  // While the body panics its error is still nil, so the deferred function commits
  // what the body has written.
  function Try<D, M>(db: D, memory: M, a: Attempt<D>, body: (M, D) -> BodyRun<D, M>): (o: Outcome<D, M>)
    ensures o.tries == 1 && o.applied <= 1 && o.seen == db && o.input == memory
  {
    if a.begin.Some? then
      Outcome(db, memory, Failed(BeginText(a.begin.value, a.deadline)), 1, 0, false, db, memory)
    else
      var run := body(memory, db);
      if run.ending.Failed? then
        Outcome(db, run.memory, Failed(Joined(run.ending.text, a.rollback)), 1, 0, false, db, memory)
      else
        var ending := if run.ending.Panic? then Panic else if a.commit.Committed? then Success else Failed(a.commit.text);
        if a.commit.CommitFailed? then Outcome(db, run.memory, ending, 1, 0, false, db, memory)
        else Outcome(run.after, run.memory, ending, 1, 1, run.ending.Panic?, db, memory)
  }

  predicate Retryable(e: Ending) {
    e.Failed? && Contains(e.text, MARKER)
  }

  // At most `left` attempts.
  function Retry<D, M>(db: D, memory: M, attempts: seq<Attempt<D>>, body: (M, D) -> BodyRun<D, M>, left: nat): Outcome<D, M>
    requires 0 < left <= |attempts|
    decreases left
  {
    var once := Try(attempts[0].others(db), memory, attempts[0], body);
    if !Retryable(once.ending) || left == 1 then once
    else if attempts[0].giveUp.Some? then once.(ending := Failed(attempts[0].giveUp.value))
    else
      var rest := Retry(once.db, once.memory, attempts[1..], body, left - 1);
      rest.(tries := rest.tries + 1, applied := rest.applied + once.applied)
  }

  // One unfolding of Retry.
  lemma RetryOnce<D, M>(db: D, memory: M, attempts: seq<Attempt<D>>, body: (M, D) -> BodyRun<D, M>, left: nat)
    requires 0 < left <= |attempts|
    ensures var once := Try(attempts[0].others(db), memory, attempts[0], body);
            var o := Retry(db, memory, attempts, body, left);
            if !Retryable(once.ending) || left == 1 then o == once
            else if attempts[0].giveUp.Some? then o == once.(ending := Failed(attempts[0].giveUp.value))
            else
              var rest := Retry(once.db, once.memory, attempts[1..], body, left - 1);
              o == rest.(tries := rest.tries + 1, applied := rest.applied + once.applied)
  {
  }

  lemma RetryGoesOn<D, M>(db: D, memory: M, attempts: seq<Attempt<D>>, body: (M, D) -> BodyRun<D, M>, left: nat)
    requires 1 < left <= |attempts| && attempts[0].giveUp.None?
    requires Retryable(Try(attempts[0].others(db), memory, attempts[0], body).ending)
    ensures var once := Try(attempts[0].others(db), memory, attempts[0], body);
            var o, rest := Retry(db, memory, attempts, body, left), Retry(once.db, once.memory, attempts[1..], body, left - 1);
            && o.db == rest.db && o.ending == rest.ending && o.partial == rest.partial
            && o.tries == rest.tries + 1 && o.applied == rest.applied + once.applied
            && (once.applied == 0 ==> o == rest.(tries := rest.tries + 1))
  {
  }

  lemma RetryStops<D, M>(db: D, memory: M, attempts: seq<Attempt<D>>, body: (M, D) -> BodyRun<D, M>, left: nat)
    requires 0 < left <= |attempts|
    requires !(Retryable(Try(attempts[0].others(db), memory, attempts[0], body).ending) && left > 1 && attempts[0].giveUp.None?)
    ensures var once := Try(attempts[0].others(db), memory, attempts[0], body);
            var o := Retry(db, memory, attempts, body, left);
            o == once.(ending := o.ending) && (o.ending == once.ending || (o.ending.Failed? && once.ending.Failed?))
  {
  }

  // ----- the attempts that are made -----

  // The texts of one attempt ask for another one.
  predicate AsksRetry<D, M>(a: Attempt<D>, run: BodyRun<D, M>) {
    if a.begin.Some? then Contains(a.begin.value, MARKER)
    else
      match run.ending
      case Failed(text) => Contains(text, MARKER) || (a.rollback.Some? && Contains(a.rollback.value, MARKER))
      case Success => !a.commit.Committed? && Contains(a.commit.text, MARKER)
      case Panic => false
  }

  // The tables and the memory that the k-th attempt starts from if it is made.
  function TraceAt<D, M>(db: D, memory: M, attempts: seq<Attempt<D>>, body: (M, D) -> BodyRun<D, M>, k: nat): (D, M)
    requires k < |attempts|
    decreases k
  {
    var first := attempts[0].others(db);
    if k == 0 then (first, memory)
    else
      var o := Try(first, memory, attempts[0], body);
      TraceAt(o.db, o.memory, attempts[1..], body, k - 1)
  }

  // The k-th attempt is made: every earlier one asks for another and is not given up.
  predicate IsMade<D, M>(db: D, memory: M, attempts: seq<Attempt<D>>, body: (M, D) -> BodyRun<D, M>, k: nat)
    requires k < |attempts|
    decreases k
  {
    k == 0 ||
    (var first := attempts[0].others(db);
     var o := Try(first, memory, attempts[0], body);
     && attempts[0].giveUp.None?
     && AsksRetry(attempts[0], body(memory, first))
     && IsMade(o.db, o.memory, attempts[1..], body, k - 1))
  }

  // A run goes on for as long as its attempts ask for another, are not given up and
  // there are attempts left.
  lemma {:induction false} MadeIff<D, M>(
    db: D, memory: M, attempts: seq<Attempt<D>>, body: (M, D) -> BodyRun<D, M>, left: nat, k: nat)
    requires 0 < left <= |attempts| && k < |attempts|
    ensures k < Retry(db, memory, attempts, body, left).tries <==> k < left && IsMade(db, memory, attempts, body, k)
    decreases left
  {
    var first := attempts[0].others(db);
    var o := Try(first, memory, attempts[0], body);
    RetriedIff(first, memory, attempts[0], body);
    if Retryable(o.ending) && left > 1 && attempts[0].giveUp.None? {
      if k > 0 {
        MadeIff(o.db, o.memory, attempts[1..], body, left - 1, k - 1);
      } else {
        MadeIff(o.db, o.memory, attempts[1..], body, left - 1, 0);
      }
    }
    hide Try, AsksRetry;
  }

  // What the last attempt leaves is what the run leaves, and it ends as that attempt
  // ends or, if it was given up, with the reason for that.
  ghost predicate EndsLike<D, M>(after: D, kept: M, ending: Ending, last: Outcome<D, M>, a: Attempt<D>, more: bool) {
    && after == last.db && kept == last.memory
    && ending == if more && Retryable(last.ending) && a.giveUp.Some? then Failed(a.giveUp.value) else last.ending
  }

  lemma {:induction false} EndsLikeItsLast<D, M>(
    db: D, memory: M, attempts: seq<Attempt<D>>, body: (M, D) -> BodyRun<D, M>, left: nat)
    requires 0 < left <= |attempts|
    ensures var o := Retry(db, memory, attempts, body, left);
            && 1 <= o.tries <= left
            && var a := attempts[o.tries - 1];
               EndsLike(o.db, o.memory, o.ending, Try(o.seen, o.input, a, body), a, o.tries < left)
    decreases left
  {
    hide Retryable;
    var o := Try(attempts[0].others(db), memory, attempts[0], body);
    if Retryable(o.ending) && left > 1 && attempts[0].giveUp.None? {
      EndsLikeItsLast(o.db, o.memory, attempts[1..], body, left - 1);
    }
  }

  lemma {:induction false} StartsWhereItWas<D, M>(
    db: D, memory: M, attempts: seq<Attempt<D>>, body: (M, D) -> BodyRun<D, M>, left: nat)
    requires 0 < left <= |attempts|
    ensures var o := Retry(db, memory, attempts, body, left);
            1 <= o.tries <= left && (o.seen, o.input) == TraceAt(db, memory, attempts, body, o.tries - 1)
    decreases left
  {
    hide Retryable;
    var o := Try(attempts[0].others(db), memory, attempts[0], body);
    if Retryable(o.ending) && left > 1 && attempts[0].giveUp.None? {
      StartsWhereItWas(o.db, o.memory, attempts[1..], body, left - 1);
    }
  }

  // At most so many attempts are made, each further one because the one before asks for
  // it and is not given up; what the last one leaves is what remains.
  ghost predicate AtMost<D, M>(
    most: nat, db: D, memory: M, attempts: seq<Attempt<D>>, body: (M, D) -> BodyRun<D, M>,
    after: D, kept: M, ending: Ending, tries: nat)
  {
    && (forall k: nat | k < |attempts| :: k < tries <==> k < most && IsMade(db, memory, attempts, body, k))
    && 1 <= tries <= most && tries <= |attempts|
    && var (seen, input) := TraceAt(db, memory, attempts, body, tries - 1);
       EndsLike(after, kept, ending, Try(seen, input, attempts[tries - 1], body), attempts[tries - 1], tries < most)
  }

  lemma RetryMeans<D, M>(db: D, memory: M, attempts: seq<Attempt<D>>, body: (M, D) -> BodyRun<D, M>, left: nat)
    requires 0 < left <= |attempts|
    ensures var o := Retry(db, memory, attempts, body, left);
            AtMost(left, db, memory, attempts, body, o.db, o.memory, o.ending, o.tries)
  {
    hide Try, EndsLike;
    var o := Retry(db, memory, attempts, body, left);
    forall k: nat | k < |attempts|
      ensures k < o.tries <==> k < left && IsMade(db, memory, attempts, body, k)
    {
      MadeIff(db, memory, attempts, body, left, k);
    }
    EndsLikeItsLast(db, memory, attempts, body, left);
    StartsWhereItWas(db, memory, attempts, body, left);
  }

  // ----- the runner -----

  class Connection<D> {
    var rows: D

    constructor (initial: D)
      ensures rows == initial
    {
      rows := initial;
    }

    // One attempt. The body works on the transaction's copy of the tables, which
    // replaces them only on commit. A nil error decides for COMMIT, and a panic
    // leaves it nil.
    method UpdateInTx<M>(memory: M, a: Attempt<D>, body: (M, D) -> BodyRun<D, M>) returns (kept: M, ending: Ending)
      modifies this
      ensures var o := Try(old(rows), memory, a, body); rows == o.db && kept == o.memory && ending == o.ending
      // the tables are the body's exactly if it ran, reported no error and was committed
      ensures var run := body(memory, old(rows));
              && rows == (if a.begin.None? && !run.ending.Failed? && !a.commit.CommitFailed? then run.after else old(rows))
              && kept == (if a.begin.None? then run.memory else memory)
      // the caller sees the first error, the rollback's joined to the body's
      ensures ending == if a.begin.Some? then Failed(BeginText(a.begin.value, a.deadline))
                        else
                          match body(memory, old(rows)).ending
                          case Panic => Panic
                          case Failed(text) => Failed(if a.rollback.Some? then text + "\n" + a.rollback.value else text)
                          case Success => if a.commit.Committed? then Success else Failed(a.commit.text)
    {
      if a.begin.Some? {
        return memory, Failed(BeginText(a.begin.value, a.deadline));
      }
      var run := body(memory, rows);
      kept := run.memory;
      var err: Option<string> := None;
      if run.ending.Failed? {
        err := Some(run.ending.text);
      }
      if err.Some? {
        if a.rollback.Some? {
          err := Some(err.value + "\n" + a.rollback.value);
        }
      } else {
        if !a.commit.CommitFailed? {
          rows := run.after;
        }
        if !a.commit.Committed? {
          err := Some(a.commit.text);
        }
      }
      ending := if run.ending.Panic? then Panic else if err.Some? then Failed(err.value) else Success;
    }

    method RunAttempts<M>(memory: M, attempts: seq<Attempt<D>>, body: (M, D) -> BodyRun<D, M>)
      returns (kept: M, ending: Ending, tries: nat)
      requires |attempts| >= MAX_TRIES
      modifies this
      ensures var o := Retry(old(rows), memory, attempts, body, MAX_TRIES);
              rows == o.db && kept == o.memory && ending == o.ending && tries == o.tries
    {
      hide Try, Retry, Retryable;
      kept, ending, tries := memory, Success, 0;
      ghost var whole := Retry(rows, memory, attempts, body, MAX_TRIES);
      while true
        invariant 0 <= tries < MAX_TRIES
        invariant var o := Retry(rows, kept, attempts[tries..], body, MAX_TRIES - tries);
                  whole.db == o.db && whole.memory == o.memory && whole.ending == o.ending && whole.tries == o.tries + tries
        decreases MAX_TRIES - tries
      {
        var a := attempts[tries];
        assert attempts[tries..][0] == a && attempts[tries..][1..] == attempts[tries + 1..];
        RetryOnce(rows, kept, attempts[tries..], body, MAX_TRIES - tries);
        rows := a.others(rows);
        kept, ending := UpdateInTx(kept, a, body);
        tries := tries + 1;
        if !Retryable(ending) || tries == MAX_TRIES {
          return;
        }
        if a.giveUp.Some? {
          ending := Failed(a.giveUp.value);
          return;
        }
      }
    }

    method Update<M>(memory: M, attempts: seq<Attempt<D>>, body: (M, D) -> BodyRun<D, M>)
      returns (kept: M, ending: Ending, tries: nat)
      requires |attempts| >= MAX_TRIES
      modifies this
      ensures var o := Retry(old(rows), memory, attempts, body, MAX_TRIES);
              rows == o.db && kept == o.memory && ending == o.ending && tries == o.tries
      ensures AtMost(10, old(rows), memory, attempts, body, rows, kept, ending, tries)
    {
      RetryMeans(rows, memory, attempts, body, MAX_TRIES);
      hide Try, Retry, AtMost;
      kept, ending, tries := RunAttempts(memory, attempts, body);
    }
  }

  // ----- atomicity over all attempts -----

  predicate AllReplied<D>(attempts: seq<Attempt<D>>) {
    forall k | 0 <= k < |attempts| :: !attempts[k].commit.ReplyLost?
  }

  // What the other clients alone make of the tables by the n-th attempt.
  function OthersOnly<D>(db: D, attempts: seq<Attempt<D>>, n: nat): D
    requires n <= |attempts|
    decreases n
  {
    if n == 0 then db else OthersOnly(attempts[0].others(db), attempts[1..], n - 1)
  }

  predicate PanicLands<D, M>(db: D, memory: M, attempts: seq<Attempt<D>>, body: (M, D) -> BodyRun<D, M>, k: nat) {
    && k < |attempts|
    && IsMade(db, memory, attempts, body, k)
    && attempts[k].begin.None? && !attempts[k].commit.CommitFailed?
    && var (seen, input) := TraceAt(db, memory, attempts, body, k);
       body(input, seen).ending.Panic?
  }

  // Partial work reaches the tables exactly when some attempt is made whose body
  // panics and whose COMMIT applies. The run ends there, with the tables as the body
  // had them.
  lemma {:induction false} PartialIff<D, M>(
    db: D, memory: M, attempts: seq<Attempt<D>>, body: (M, D) -> BodyRun<D, M>, left: nat)
    requires 0 < left <= |attempts|
    ensures var o := Retry(db, memory, attempts, body, left);
            && (o.partial <==> exists k: nat :: k < left && PanicLands(db, memory, attempts, body, k))
            && forall k: nat | k < left && PanicLands(db, memory, attempts, body, k) ::
                 var (seen, input) := TraceAt(db, memory, attempts, body, k);
                 o.tries == k + 1 && o.ending.Panic? && o.db == body(input, seen).after
    decreases left
  {
    var first := attempts[0].others(db);
    var o := Try(first, memory, attempts[0], body);
    var whole := Retry(db, memory, attempts, body, left);
    RetriedIff(first, memory, attempts[0], body);
    if Retryable(o.ending) && left > 1 && attempts[0].giveUp.None? {
      PartialIff(o.db, o.memory, attempts[1..], body, left - 1);
      assert !PanicLands(db, memory, attempts, body, 0);
      forall k: nat | k < left && PanicLands(db, memory, attempts, body, k)
        ensures var (seen, input) := TraceAt(db, memory, attempts, body, k);
                whole.partial && whole.tries == k + 1 && whole.ending.Panic? && whole.db == body(input, seen).after
      {
        PanicsNext(db, memory, attempts, body, k - 1);
      }
      if whole.partial {
        var k: nat :| k < left - 1 && PanicLands(o.db, o.memory, attempts[1..], body, k);
        PanicsNext(db, memory, attempts, body, k);
        assert PanicLands(db, memory, attempts, body, k + 1);
      }
    } else {
      assert forall k: nat | k < left && PanicLands(db, memory, attempts, body, k) :: k == 0;
      assert o.partial ==> PanicLands(db, memory, attempts, body, 0);
    }
  }

  // Past a first attempt that asks for another, the panics are those of the rest.
  lemma PanicsNext<D, M>(db: D, memory: M, attempts: seq<Attempt<D>>, body: (M, D) -> BodyRun<D, M>, k: nat)
    requires k + 1 < |attempts| && attempts[0].giveUp.None?
    requires AsksRetry(attempts[0], body(memory, attempts[0].others(db)))
    ensures var o := Try(attempts[0].others(db), memory, attempts[0], body);
            && (PanicLands(db, memory, attempts, body, k + 1) <==> PanicLands(o.db, o.memory, attempts[1..], body, k))
            && TraceAt(db, memory, attempts, body, k + 1) == TraceAt(o.db, o.memory, attempts[1..], body, k)
  {
    hide Try, AsksRetry;
  }

  // If every COMMIT is answered, then after at most ten attempts, unless partial
  // work was committed, either the other clients alone changed the tables, or the
  // run succeeded and exactly one body run was added to what they did.
  lemma {:induction false} AllOrNothing<D, M>(
    db: D, memory: M, attempts: seq<Attempt<D>>, body: (M, D) -> BodyRun<D, M>, left: nat)
    requires 0 < left <= |attempts| && AllReplied(attempts)
    ensures var o := Retry(db, memory, attempts, body, left);
            && 1 <= o.tries <= left
            && o.seen == OthersOnly(db, attempts, o.tries)
            && (!o.partial && !o.ending.Success? ==> o.applied == 0 && o.db == o.seen)
            && (o.ending.Success? ==> !o.partial && o.applied == 1 && body(o.input, o.seen).ending.Success?
                                      && o.db == body(o.input, o.seen).after)
            && (o.partial ==> o.applied == 1)
    decreases left
  {
    var first := attempts[0].others(db);
    var o := Try(first, memory, attempts[0], body);
    assert OthersOnly(db, attempts, 1) == OthersOnly(first, attempts[1..], 0);
    if Retryable(o.ending) && left > 1 && attempts[0].giveUp.None? {
      AllOrNothing(first, o.memory, attempts[1..], body, left - 1);
    }
  }

  // ----- lost replies -----

  // The run can go on past this attempt.
  predicate Passes<D>(a: Attempt<D>) {
    a.giveUp.None? && (a.begin.None? || Contains(a.begin.value, MARKER))
  }

  // A body run of this attempt can reach the tables.
  predicate Lands<D>(a: Attempt<D>) {
    a.begin.None? && !a.commit.CommitFailed?
  }

  // ... and its reply gets lost behind a text that asks for a retry.
  predicate MarkedLoss<D>(a: Attempt<D>) {
    a.begin.None? && a.commit.ReplyLost? && Contains(a.commit.text, MARKER)
  }

  predicate Reached<D>(attempts: seq<Attempt<D>>, k: nat)
    requires k < |attempts|
  {
    forall i | 0 <= i < k :: Passes(attempts[i])
  }

  // A marked loss before another commit that the run can still reach.
  predicate CanReapplyAt<D>(attempts: seq<Attempt<D>>, j: nat, k: nat) {
    j < k < |attempts| && MarkedLoss(attempts[j]) && Lands(attempts[k]) && Reached(attempts, k)
  }

  predicate CanApplyAt<D>(attempts: seq<Attempt<D>>, k: nat) {
    k < |attempts| && Lands(attempts[k]) && Reached(attempts, k)
  }

  lemma ReachedLater<D>(attempts: seq<Attempt<D>>, k: nat)
    requires k < |attempts| - 1 && Passes(attempts[0]) && Reached(attempts[1..], k)
    ensures Reached(attempts, k + 1)
  {
    assert forall i | 0 < i <= k :: attempts[i] == attempts[1..][i - 1];
  }

  // A run goes on only past an attempt that can be passed, and an attempt that has
  // reached the tables only behind a marked loss.
  lemma GoesOn<D, M>(db: D, memory: M, a: Attempt<D>, body: (M, D) -> BodyRun<D, M>)
    ensures var o := Try(db, memory, a, body);
            && (o.applied == 1 ==> Lands(a))
            && (Retryable(o.ending) && a.giveUp.None? ==> Passes(a) && (o.applied == 1 ==> MarkedLoss(a)))
  {
    if a.begin.Some? {
      BeginTextSearch(a.begin.value, a.deadline);
    }
  }

  lemma {:induction false} ApplyNeeds<D, M>(
    db: D, memory: M, attempts: seq<Attempt<D>>, body: (M, D) -> BodyRun<D, M>, left: nat) returns (k: nat)
    requires 0 < left <= |attempts| && Retry(db, memory, attempts, body, left).applied >= 1
    ensures k < left && CanApplyAt(attempts, k)
    decreases left
  {
    var o := Try(attempts[0].others(db), memory, attempts[0], body);
    GoesOn(attempts[0].others(db), memory, attempts[0], body);
    hide Try, Passes, Lands, Reached, Contains;
    if o.applied == 1 {
      k := 0;
      ReachedFirst(attempts);
    } else {
      var rest := ApplyNeeds(o.db, o.memory, attempts[1..], body, left - 1);
      k := rest + 1;
      ReachedLater(attempts, rest);
    }
  }

  lemma ReachedFirst<D>(attempts: seq<Attempt<D>>)
    requires attempts != []
    ensures Reached(attempts, 0)
  {
  }

  lemma {:induction false} ReapplyNeeds<D, M>(
    db: D, memory: M, attempts: seq<Attempt<D>>, body: (M, D) -> BodyRun<D, M>, left: nat) returns (j: nat, k: nat)
    requires 0 < left <= |attempts| && Retry(db, memory, attempts, body, left).applied >= 2
    ensures k < left && CanReapplyAt(attempts, j, k)
    decreases left
  {
    var o := Try(attempts[0].others(db), memory, attempts[0], body);
    GoesOn(attempts[0].others(db), memory, attempts[0], body);
    hide Try, Passes, Lands, MarkedLoss, Reached, Contains;
    if o.applied == 1 {
      var rest := ApplyNeeds(o.db, o.memory, attempts[1..], body, left - 1);
      j, k := 0, rest + 1;
      ReachedLater(attempts, rest);
    } else {
      var first, second := ReapplyNeeds(o.db, o.memory, attempts[1..], body, left - 1);
      j, k := first + 1, second + 1;
      ReachedLater(attempts, second);
    }
  }

  // A body that fails with the marker or succeeds as its memory tells it.
  function Scripted<D>(script: seq<bool>, d: D): BodyRun<D, seq<bool>> {
    if script == [] || script[0] then BodyRun(if script == [] then [] else script[1..], d, Success)
    else BodyRun(script[1..], d, Failed(MARKER))
  }

  lemma MarkerContainsItself(rollback: Option<string>)
    ensures Contains(Joined(MARKER, rollback), MARKER)
  {
    assert MARKER[0..0 + |MARKER|] == MARKER;
    assert OccursAt(MARKER, MARKER, 0);
    if rollback.Some? {
      ContainsSplit(MARKER, '\n', rollback.value, MARKER);
    }
  }

  // The script that succeeds in attempts k and, if it lies ahead, j.
  lemma {:induction false} ScriptFor<D>(db: D, attempts: seq<Attempt<D>>, left: nat, j: int, k: nat)
    returns (script: seq<bool>)
    requires k < left <= |attempts| && j < k && CanApplyAt(attempts, k)
    requires j >= 0 ==> MarkedLoss(attempts[j])
    ensures Retry(db, script, attempts, Scripted, left).applied >= if j >= 0 then 2 else 1
    decreases left
  {
    var a, first := attempts[0], attempts[0].others(db);
    if k == 0 {
      script := [true];
    } else {
      assert Passes(a);
      assert forall i | 0 <= i < k - 1 :: attempts[1..][i] == attempts[i + 1];
      var rest := ScriptFor(first, attempts[1..], left - 1, j - 1, k - 1);
      if a.begin.Some? {
        BeginTextSearch(a.begin.value, a.deadline);
        script := rest;
      } else {
        MarkerContainsItself(a.rollback);
        script := [j == 0] + rest;
        assert script[1..] == rest;
      }
    }
  }

  // Some body is applied twice under these attempts, whatever the tables, exactly
  // when a reply is lost behind the marker before another commit the run can reach.
  // A loss in the last attempt, before a give-up or without the marker does no harm.
  lemma ReappliesIff<D(!new)>(db: D, attempts: seq<Attempt<D>>, left: nat)
    requires 0 < left <= |attempts|
    ensures (exists body: (seq<bool>, D) -> BodyRun<D, seq<bool>>, script: seq<bool> ::
               Retry(db, script, attempts, body, left).applied >= 2)
            <==> exists j: nat, k: nat :: k < left && CanReapplyAt(attempts, j, k)
  {
    if exists j: nat, k: nat :: k < left && CanReapplyAt(attempts, j, k) {
      var j: nat, k: nat :| k < left && CanReapplyAt(attempts, j, k);
      var script := ScriptFor(db, attempts, left, j, k);
      assert Retry(db, script, attempts, Scripted, left).applied >= 2;
    }
    if exists body: (seq<bool>, D) -> BodyRun<D, seq<bool>>, script: seq<bool> ::
         Retry(db, script, attempts, body, left).applied >= 2 {
      var body: (seq<bool>, D) -> BodyRun<D, seq<bool>>, script: seq<bool> :|
        Retry(db, script, attempts, body, left).applied >= 2;
      var j, k := ReapplyNeeds(db, script, attempts, body, left);
    }
  }

  // ----- which errors are retried -----

  // A separator that the searched text lacks splits the search in two.
  lemma ContainsSplit(a: string, separator: char, b: string, part: string)
    requires separator !in part
    ensures Contains(a + [separator] + b, part) <==> Contains(a, part) || Contains(b, part)
  {
    var s := a + [separator] + b;
    if Contains(a, part) {
      var i :| 0 <= i <= |a| && OccursAt(a, part, i);
      assert s[i..i + |part|] == a[i..i + |part|];
      assert OccursAt(s, part, i);
    }
    if Contains(b, part) {
      var i :| 0 <= i <= |b| && OccursAt(b, part, i);
      var j := |a| + 1 + i;
      assert s[j..j + |part|] == b[i..i + |part|];
      assert OccursAt(s, part, j);
    }
    if Contains(s, part) {
      var i :| 0 <= i <= |s| && OccursAt(s, part, i);
      OccursInHalf(a, separator, b, part, i);
    }
  }

  lemma OccursInHalf(a: string, separator: char, b: string, part: string, i: int)
    requires separator !in part && OccursAt(a + [separator] + b, part, i)
    ensures Contains(a, part) || Contains(b, part)
  {
    var s := a + [separator] + b;
    forall k | i <= k < i + |part|
      ensures s[k] != separator
    {
      assert s[i..i + |part|][k - i] == s[k] && part[k - i] in part;
    }
    assert s[|a|] == separator;
    if i + |part| <= |a| {
      assert a[i..i + |part|] == s[i..i + |part|];
      assert OccursAt(a, part, i);
    } else if |a| < i {
      var j := i - |a| - 1;
      assert b[j..j + |part|] == s[i..i + |part|];
      assert OccursAt(b, part, j);
    }
  }

  lemma NoBlankInFront(text: string)
    ensures Contains(" " + text, MARKER) <==> Contains(text, MARKER)
  {
    var s := " " + text;
    var n := |MARKER|;
    assert MARKER[0] == 'c';
    if Contains(s, MARKER) {
      var i :| 0 <= i <= |s| && OccursAt(s, MARKER, i);
      assert s[i..i + n][0] == s[i];
      assert text[i - 1..i - 1 + n] == s[i..i + n];
      assert OccursAt(text, MARKER, i - 1);
    }
    if Contains(text, MARKER) {
      var i :| 0 <= i <= |text| && OccursAt(text, MARKER, i);
      assert s[i + 1..i + 1 + n] == text[i..i + n];
      assert OccursAt(s, MARKER, i + 1);
    }
  }

  lemma LacksLetter(s: string, part: string, k: nat)
    requires k < |part| && part[k] !in s
    ensures !Contains(s, part)
  {
    forall i | 0 <= i <= |s|
      ensures !OccursAt(s, part, i)
    {
      if i + |part| <= |s| {
        assert s[i..i + |part|][k] == s[i + k];
      }
    }
  }

  // An attempt is retried exactly when the marker is in the text of some error that
  // occurred: the wrapping and the joining neither hide nor invent it. So a failed
  // ROLLBACK can make a permanent error retryable. A panic is never retried.
  lemma RetriedIff<D, M>(db: D, memory: M, a: Attempt<D>, body: (M, D) -> BodyRun<D, M>)
    ensures Retryable(Try(db, memory, a, body).ending) <==> AsksRetry(a, body(memory, db))
  {
    if a.begin.Some? {
      BeginTextSearch(a.begin.value, a.deadline);
    } else if body(memory, db).ending.Failed? && a.rollback.Some? {
      ContainsSplit(body(memory, db).ending.text, '\n', a.rollback.value, MARKER);
    }
  }

  lemma PrefixedSearch(head: string, text: string)
    requires 'z' !in head
    ensures Contains(head + ": " + text, MARKER) <==> Contains(text, MARKER)
  {
    assert MARKER[17] == 'z';
    LacksLetter(head, MARKER, 17);
    assert head + ": " + text == head + [':'] + (" " + text);
    ContainsSplit(head, ':', " " + text, MARKER);
    NoBlankInFront(text);
  }

  lemma HeadLacksZ(deadline: bool)
    ensures 'z' !in BeginHead(deadline)
  {
    assert 'z' !in BEGIN_FAILED;
    assert 'z' !in POOL_EXHAUSTED;
    assert 'z' !in DEADLINE_EXCEEDED;
  }

  lemma BeginTextSearch(text: string, deadline: bool)
    ensures Contains(BeginText(text, deadline), MARKER) <==> Contains(text, MARKER)
  {
    HeadLacksZ(deadline);
    PrefixedSearch(BeginHead(deadline), text);
  }
}
