/** Consequences over whole runs: no deadlock, and when an old secret stays although the answer has a new one
    (odps/accounts.py). */
module CredentialRuns {
  import opened Text
  import opened Credentials
  import opened CredentialSafety

  // ----- locks -----

  /** While a thread is inside the refresh lock, no other thread's step touches the account. */
  lemma OthersLeaveTheAccount(s: System, t: nat, u: nat, c: Choice, g: Signing)
    requires Locked(s) && t < |s.threads| && u != t && UsesRefresh(s.threads[t].pc)
    ensures Next(s, u, c, g).shared.account == s.shared.account
  {
    hide Step, UsesRefresh, UsesSignature, RefreshDepth;
    if u < |s.threads| {
      StepFrame(s.shared, s.threads[u], u, c, g);
      assert LocksOk(s.shared, s.threads[t], t) && LocksOk(s.shared, s.threads[u], u);
    }
  }

  predicate Moves(s: System, t: nat, c: Choice, g: Signing)
    requires t < |s.threads|
  {
    Step(s.shared, s.threads[t], t, c, g).1.pc != s.threads[t].pc
  }

  lemma FreeLockMoves(s: System, t: nat, c: Choice, g: Signing)
    requires Locked(s) && t < |s.threads| && !c.fails
    requires s.shared.refreshLock.None? || UsesRefresh(s.threads[t].pc)
    requires s.threads[t].pc == WantsKey ==> s.shared.signatureLock.None?
    ensures Moves(s, t, c, g)
  {
    hide DerivedKey, NeedUpdate, SameId, Or;
    assert LocksOk(s.shared, s.threads[t], t);
  }

  lemma SignatureLockIsInner(s: System)
    requires Locked(s) && s.shared.signatureLock.Some?
    ensures s.shared.refreshLock.Some? && s.shared.refreshLock.value.owner == s.shared.signatureLock.value.owner
  {
    var t := s.shared.signatureLock.value.owner;
    assert LocksOk(s.shared, s.threads[t], t);
  }

  /** No deadlock: unless all threads are idle, one that is not can move, whatever the outside decides
      short of a failing provider. */
  lemma SomeThreadMoves(s: System, g: Signing)
    requires Safe(s, g) && exists t :: 0 <= t < |s.threads| && s.threads[t].pc != Idle
    ensures exists t :: 0 <= t < |s.threads| && s.threads[t].pc != Idle
                     && forall c: Choice | !c.fails :: Moves(s, t, c, g)
  {
    hide Moves, UsesSignature, RefreshDepth;
    var t: nat := if s.shared.refreshLock.Some? then s.shared.refreshLock.value.owner
                  else var u :| 0 <= u < |s.threads| && s.threads[u].pc != Idle; u;
    assert LocksOk(s.shared, s.threads[t], t);
    if s.threads[t].pc == WantsKey && s.shared.signatureLock.Some? {
      SignatureLockIsInner(s);
      KeyIsWantedOutside();
      assert false;
    }
    forall c: Choice | !c.fails ensures Moves(s, t, c, g) {
      FreeLockMoves(s, t, c, g);
    }
  }

  lemma KeyIsWantedOutside()
    ensures !UsesSignature(WantsKey)
  {
  }

  lemma NoDeadlock(threads: nat, time: int, moves: seq<Move>, g: Signing)
    ensures var s := Run(Start(threads, time, g), moves, g);
            (exists t :: 0 <= t < |s.threads| && s.threads[t].pc != Idle) ==>
              exists t :: 0 <= t < |s.threads| && s.threads[t].pc != Idle
                       && forall c: Choice | !c.fails :: Moves(s, t, c, g)
  {
    hide Run, Start, Safe, Moves;
    StartSafe(threads, time, g);
    RunSafe(Start(threads, time, g), moves, g);
    var s := Run(Start(threads, time, g), moves, g);
    if exists t :: 0 <= t < |s.threads| && s.threads[t].pc != Idle {
      SomeThreadMoves(s, g);
    }
  }

  // ----- an id that stays keeps its secret -----

  function RefreshSteps(h: Shared, th: Thread, t: nat, c: Choice, n: nat): (Shared, Thread)
    decreases n
  {
    if n == 0 || th.pc == LeavingRefresh then (h, th)
    else
      var (k, next) := RefreshStep(h, th, t, c);
      RefreshSteps(k, next, t, c, n - 1)
  }

  predicate Carries(a: Account, c: Credential)
  {
    a.id == Some(c.id) && a.secret == Some(c.secret) && a.token == c.token
  }

  lemma RefreshStepsOn(h: Shared, th: Thread, t: nat, c: Choice, n: nat)
    requires n > 0 && th.pc != LeavingRefresh
    ensures RefreshSteps(h, th, t, c, n)
         == var (k, next) := RefreshStep(h, th, t, c); RefreshSteps(k, next, t, c, n - 1)
  {
  }

  lemma RefreshStepsEnd(h: Shared, th: Thread, t: nat, c: Choice, n: nat)
    requires th.pc == LeavingRefresh
    ensures RefreshSteps(h, th, t, c, n) == (h, th)
  {
  }

  lemma WriteAnswer(h: Shared, th: Thread, t: nat, c: Choice)
    requires th.pc == WritingId && h.account.keyDate == None
    ensures var (k, next) := RefreshSteps(h, th, t, c, 3);
            next.pc == LeavingRefresh && Carries(k.account, th.answer) && k.account.keyDate == None
  {
    hide RefreshSteps;
    RefreshStepsOn(h, th, t, c, 3);
    var (h1, t1) := RefreshStep(h, th, t, c);
    RefreshStepsOn(h1, t1, t, c, 2);
    var (h2, t2) := RefreshStep(h1, t1, t, c);
    RefreshStepsOn(h2, t2, t, c, 1);
    var (h3, t3) := RefreshStep(h2, t2, t, c);
    RefreshStepsEnd(h3, t3, t, c, 0);
  }

  /** After a refresh the account has the provider's answer exactly when the access id is new, or nothing in the
      answer is. */
  lemma RefreshTakesAnswerIff(h: Shared, th: Thread, t: nat, c: Choice)
    requires th.pc == Refreshing
    ensures var (k, next) := RefreshSteps(h, th, t, c, 4);
            && next.pc == LeavingRefresh
            && (Carries(k.account, th.answer) <==>
                  h.account.id != Some(th.answer.id) || th.answer.id == "" || Carries(h.account, th.answer))
            && (k.account.keyDate.Some? ==> k.account == h.account)
  {
    hide RefreshSteps;
    RefreshStepsOn(h, th, t, c, 4);
    var (k, next) := RefreshStep(h, th, t, c);
    if SameId(h.account, th.answer) {
      RefreshStepsEnd(k, next, t, c, 3);
    } else {
      WriteAnswer(k, next, t, c);
    }
  }

  /** A provider that fails leaves everything as it was: the thread asks again, or gives up and stops. */
  lemma FailureChangesNothing(h: Shared, th: Thread, t: nat, c: Choice)
    requires th.pc == Fetching && c.fails
    ensures RefreshStep(h, th, t, c) == (h, th.(pc := if c.givesUp then Idle else Fetching))
  {
  }

  // ----- renewing the account -----

  /** A thread's steps from `Reloading` until it signs, at one time of the clock. */
  function ReloadSteps(h: Shared, th: Thread, t: nat, c: Choice, g: Signing, n: nat): (Shared, Thread)
    decreases n
  {
    if n == 0 || th.pc in {ReadingSecret, ReadingId} then (h, th)
    else
      var (k, next) := ReloadStep(h, th, t, c, g);
      ReloadSteps(k, next, t, c, g, n - 1)
  }

  lemma ReloadStepsOn(h: Shared, th: Thread, t: nat, c: Choice, g: Signing, n: nat)
    requires n > 0 && th.pc !in {ReadingSecret, ReadingId}
    ensures ReloadSteps(h, th, t, c, g, n)
         == var (k, next) := ReloadStep(h, th, t, c, g); ReloadSteps(k, next, t, c, g, n - 1)
  {
  }

  lemma ReloadStepsEnd(h: Shared, th: Thread, t: nat, c: Choice, g: Signing, n: nat)
    requires th.pc in {ReadingSecret, ReadingId}
    ensures ReloadSteps(h, th, t, c, g, n) == (h, th)
  {
  }

  /** There is no token, or the clock has passed the expiry or the refresh interval. */
  predicate Due(a: Account, time: int, g: Signing)
  {
    a.token == None || time > a.expireTime || time > a.lastRefresh + g.seconds
  }

  lemma DueIsNeedUpdate(a: Account, time: int, g: Signing)
    ensures NeedUpdate(a, time, g) <==> Due(a, time, g)
    ensures var renewed := a.(lastRefresh := time, expireTime := time + g.seconds);
            g.seconds >= 0 && a.token.Some? ==> !Due(renewed, time, g)
  {
  }

  lemma WriteTimes(h: Shared, th: Thread, t: nat, c: Choice, g: Signing)
    requires th.pc == WritingRefreshTime && h.refreshLock == Some(Hold(t, 2))
    ensures var (k, next) := ReloadSteps(h, th, t, c, g, 3);
            && next.pc in {ReadingSecret, ReadingId}
            && k == h.(refreshLock := Some(Hold(t, 1)),
                       account := h.account.(lastRefresh := th.time, expireTime := th.time + g.seconds))
  {
    hide ReloadSteps, NeedUpdate;
    ReloadStepsOn(h, th, t, c, g, 3);
    var (h4, t4) := ReloadStep(h, th, t, c, g);
    ReloadStepsOn(h4, t4, t, c, g, 2);
    var (h5, t5) := ReloadStep(h4, t4, t, c, g);
    ReloadStepsOn(h5, t5, t, c, g, 1);
    var (h6, t6) := ReloadStep(h5, t5, t, c, g);
    ReloadStepsEnd(h6, t6, t, c, g, 0);
  }

  lemma Renew(h: Shared, th: Thread, t: nat, c: Choice, g: Signing)
    requires th.pc == WantsReload && h.refreshLock == Some(Hold(t, 1)) && NeedUpdate(h.account, c.time, g)
    ensures var (k, next) := ReloadSteps(h, th, t, c, g, 5);
            && next.pc in {ReadingSecret, ReadingId}
            && k == h.(account := h.account.(lastRefresh := c.time, expireTime := c.time + g.seconds))
  {
    hide ReloadSteps, NeedUpdate;
    ReloadStepsOn(h, th, t, c, g, 5);
    var (h2, t2) := ReloadStep(h, th, t, c, g);
    ReloadStepsOn(h2, t2, t, c, g, 4);
    var (h3, t3) := ReloadStep(h2, t2, t, c, g);
    WriteTimes(h3, t3, t, c, g);
  }

  /** Both times are renewed exactly when the account is due; nothing else changes, and the lock is held as before. */
  lemma ReloadRenewsIff(h: Shared, th: Thread, t: nat, c: Choice, g: Signing)
    requires th.pc == Reloading && h.refreshLock == Some(Hold(t, 1))
    ensures var (k, next) := ReloadSteps(h, th, t, c, g, 6);
            && next.pc in {ReadingSecret, ReadingId}
            && (Due(h.account, c.time, g) ==>
                  k == h.(account := h.account.(lastRefresh := c.time, expireTime := c.time + g.seconds)))
            && (!Due(h.account, c.time, g) ==> k == h)
            && (g.seconds >= 0 && k.account.token.Some? ==> !Due(k.account, c.time, g))
  {
    hide ReloadSteps, NeedUpdate, Due;
    DueIsNeedUpdate(h.account, c.time, g);
    ReloadStepsOn(h, th, t, c, g, 6);
    var (h1, t1) := ReloadStep(h, th, t, c, g);
    if Due(h.account, c.time, g) {
      Renew(h1, t1, t, c, g);
    } else {
      ReloadStepsEnd(h1, t1, t, c, g, 5);
    }
  }
}
