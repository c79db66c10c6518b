/** What every interleaving of `sign_request` calls keeps (odps/accounts.py). */
module CredentialSafety {
  import opened Text
  import opened Credentials

  // ----- locks -----

  predicate UsesRefresh(pc: Pc)
  {
    match pc
    case Idle | Fetching | WantsRefresh | WantsSigning => false
    case _ => true
  }

  predicate UsesSignature(pc: Pc)
  {
    pc in {CheckingKey, Deriving, WritingDate, WritingKey, ReadingKey, LeavingKey}
  }

  function RefreshDepth(pc: Pc): nat
  {
    if pc in {Rechecking, WritingRefreshTime, WritingExpiry, LeavingReload} then 2 else 1
  }

  /** The lock and one thread agree: inside means held, to the given depth; outside means held by another or not. */
  predicate LockOk(lock: Option<Hold>, t: nat, inside: bool, depth: nat)
  {
    if inside then lock == Some(Hold(t, depth)) else lock.Some? ==> lock.value.owner != t
  }

  predicate LocksOk(h: Shared, th: Thread, t: nat)
  {
    && LockOk(h.refreshLock, t, UsesRefresh(th.pc), RefreshDepth(th.pc))
    && LockOk(h.signatureLock, t, UsesSignature(th.pc), 1)
  }

  predicate Owned(lock: Option<Hold>, threads: nat)
  {
    lock.Some? ==> lock.value.owner < threads
  }

  /** Each lock is held by exactly the thread that is inside, to the depth it entered. */
  predicate Locked(s: System)
  {
    && (forall t | 0 <= t < |s.threads| :: LocksOk(s.shared, s.threads[t], t))
    && Owned(s.shared.refreshLock, |s.threads|)
    && Owned(s.shared.signatureLock, |s.threads|)
  }

  /** One lock before and after a step of `t`: entered when free, left free, otherwise as it was. */
  predicate LockMove(before: Option<Hold>, after: Option<Hold>, t: nat, inside: bool, stillInside: bool, depth: nat)
  {
    if stillInside then after == Some(Hold(t, depth)) && (!inside ==> before.None?)
    else after == if inside then None else before
  }

  predicate LockMoves(h: Shared, th: Thread, k: Shared, next: Thread, t: nat)
  {
    && LockMove(h.refreshLock, k.refreshLock, t, UsesRefresh(th.pc), UsesRefresh(next.pc), RefreshDepth(next.pc))
    && LockMove(h.signatureLock, k.signatureLock, t, UsesSignature(th.pc), UsesSignature(next.pc), 1)
  }

  lemma RefreshMovesLocks(h: Shared, th: Thread, t: nat, c: Choice)
    requires LocksOk(h, th, t)
    ensures var (k, next) := RefreshStep(h, th, t, c);
            LockMoves(h, th, k, next, t)
  {
    hide SameId;
  }

  lemma ReloadMovesLocks(h: Shared, th: Thread, t: nat, c: Choice, g: Signing)
    requires LocksOk(h, th, t)
    ensures var (k, next) := ReloadStep(h, th, t, c, g);
            LockMoves(h, th, k, next, t)
  {
    hide NeedUpdate;
  }

  lemma KeyMovesLocks(h: Shared, th: Thread, t: nat, g: Signing)
    requires LocksOk(h, th, t)
    ensures var (k, next) := KeyStep(h, th, t, g);
            LockMoves(h, th, k, next, t)
  {
    hide DerivedKey, Or;
  }

  lemma SignMovesLocks(h: Shared, th: Thread, t: nat, c: Choice)
    requires LocksOk(h, th, t)
    ensures var (k, next) := SignStep(h, th, t, c);
            LockMoves(h, th, k, next, t)
  {
    hide Or;
  }

  lemma StartMovesNoLock(h: Shared, th: Thread, t: nat, c: Choice)
    requires LocksOk(h, th, t) && th.pc == Idle
    ensures var regions := h.regions + if c.region.Some? then [c.region.value] else [];
            LockMoves(h, th, h.(regions := regions), RESTING.(pc := Fetching, region := c.region), t)
  {
  }

  lemma StepMovesLocks(h: Shared, th: Thread, t: nat, c: Choice, g: Signing)
    requires LocksOk(h, th, t)
    ensures var (k, next) := Step(h, th, t, c, g);
            LockMoves(h, th, k, next, t)
  {
    hide RefreshStep, ReloadStep, KeyStep, SignStep, LocksOk, LockMoves;
    RefreshMovesLocks(h, th, t, c);
    ReloadMovesLocks(h, th, t, c, g);
    KeyMovesLocks(h, th, t, g);
    SignMovesLocks(h, th, t, c);
    if th.pc == Idle {
      StartMovesNoLock(h, th, t, c);
    }
  }

  lemma MovedLocksAreOwned(h: Shared, th: Thread, k: Shared, next: Thread, t: nat, threads: nat)
    requires LockMoves(h, th, k, next, t) && t < threads
    requires Owned(h.refreshLock, threads) && Owned(h.signatureLock, threads)
    ensures Owned(k.refreshLock, threads) && Owned(k.signatureLock, threads)
  {
    hide UsesRefresh, UsesSignature, RefreshDepth;
  }

  /** A step leaves the locks as its own thread and as every other thread needs them. */
  lemma MovedLocksOk(h: Shared, th: Thread, k: Shared, next: Thread, t: nat, other: Thread, u: nat)
    requires LocksOk(h, th, t) && LockMoves(h, th, k, next, t) && LocksOk(h, other, u)
    ensures LocksOk(k, next, t) && (u != t ==> LocksOk(k, other, u))
  {
    hide UsesRefresh, UsesSignature, RefreshDepth;
  }

  lemma NextLocked(s: System, t: nat, c: Choice, g: Signing)
    requires Locked(s)
    ensures Locked(Next(s, t, c, g))
  {
    hide Step, LocksOk, LockMoves, Owned;
    if t < |s.threads| {
      var r := Next(s, t, c, g);
      StepMovesLocks(s.shared, s.threads[t], t, c, g);
      MovedLocksAreOwned(s.shared, s.threads[t], r.shared, r.threads[t], t, |s.threads|);
      forall u | 0 <= u < |r.threads| ensures LocksOk(r.shared, r.threads[u], u) {
        assert LocksOk(s.shared, s.threads[u], u);
        MovedLocksOk(s.shared, s.threads[t], r.shared, r.threads[t], t, s.threads[u], u);
      }
    }
  }

  // ----- the account -----

  /** Id, secret and token are those of one answer. */
  predicate Whole(a: Account, answers: seq<Credential>)
  {
    && a.id.Some? && a.secret.Some?
    && Credential(a.id.value, a.secret.value, a.token) in answers
  }

  predicate Settled(a: Account, answers: seq<Credential>, regions: seq<Region>, g: Signing)
  {
    && Whole(a, answers)
    && (a.keyDate.Some? ==>
          a.key == DerivedKey(g, a.secret.value, a.keyDate.value, a.keyRegion) && a.keyRegion in regions)
  }

  predicate AtRest(a: Account, answers: seq<Credential>, regions: seq<Region>, g: Signing)
  {
    (a.id.None? && a.keyDate.None?) || Settled(a, answers, regions, g)
  }

  predicate KeyOf(th: Thread, a: Account, region: Option<Region>, g: Signing)
  {
    a.secret.Some? && th.key == SigningKey(g, a.secret.value, th.date, region)
  }

  /** What a thread relies on where it is. */
  predicate ThreadOk(th: Thread, a: Account, answers: seq<Credential>, regions: seq<Region>, g: Signing)
  {
    && (th.region.Some? ==> th.region.value in regions)
    && match th.pc
       case Idle | Fetching => true
       case WantsRefresh => th.answer in answers
       case Refreshing => th.answer in answers && AtRest(a, answers, regions, g)
       case WritingId => th.answer in answers && a.keyDate.None?
       case WritingSecret => th.answer in answers && a.keyDate.None? && a.id == Some(th.answer.id)
       case WritingToken =>
         th.answer in answers && a.keyDate.None? && a.id == Some(th.answer.id) && a.secret == Some(th.answer.secret)
       case WantsSigning => a.id.Some?
       case LeavingRefresh | Reloading | WantsReload | Rechecking | WritingRefreshTime | WritingExpiry | LeavingReload
         | LeavingSigning => Settled(a, answers, regions, g)
       case ReadingSecret => Settled(a, answers, regions, g) && th.region.None?
       case ReadingIdLast =>
         Settled(a, answers, regions, g) && th.region.None? && th.keyRegion.None? && KeyOf(th, a, None, g)
       case ReadingId => Settled(a, answers, regions, g) && th.region.Some?
       case WantsKey | CheckingKey | Deriving =>
         Settled(a, answers, regions, g) && th.region.Some? && a.id == Some(th.id)
       case WritingDate =>
         Settled(a, answers, regions, g) && th.region.Some? && a.id == Some(th.id) && KeyOf(th, a, th.region, g)
       case WritingKey =>
         && Whole(a, answers) && a.keyDate == Some(th.date)
         && th.region.Some? && a.id == Some(th.id) && KeyOf(th, a, th.region, g)
       case ReadingKey =>
         Settled(a, answers, regions, g) && a.keyDate == Some(th.date) && th.region.Some? && a.id == Some(th.id)
       case LeavingKey | ReadingToken =>
         && Settled(a, answers, regions, g) && a.id == Some(th.id) && KeyOf(th, a, th.keyRegion, g)
         && (th.region.Some? <==> th.keyRegion.Some?)
         && (th.keyRegion.Some? ==> th.keyRegion.value in regions)
  }

  /** A signed request's id, token and key come from one answer; its key is for some requested region. */
  ghost predicate Genuine(e: Signed, answers: seq<Credential>, regions: seq<Region>, g: Signing)
  {
    && (exists secret: string :: Credential(e.id, secret, e.token) in answers
                                 && e.key == SigningKey(g, secret, e.date, e.keyRegion))
    && (e.region.Some? <==> e.keyRegion.Some?)
    && (e.region.Some? ==> e.region.value in regions && e.keyRegion.value in regions)
  }

  /** The account as the thread sees it: the thread's own needs, and rest outside the lock. */
  predicate Local(h: Shared, th: Thread, g: Signing)
  {
    && ThreadOk(th, h.account, h.answers, h.regions, g)
    && (h.refreshLock.None? ==> AtRest(h.account, h.answers, h.regions, g))
  }

  /** Every signed request is genuine. */
  ghost predicate AllGenuine(h: Shared, g: Signing)
  {
    forall e | e in h.signed :: Genuine(e, h.answers, h.regions, g)
  }

  ghost predicate Safe(s: System, g: Signing)
  {
    && Locked(s)
    && (forall t | 0 <= t < |s.threads| ::
          ThreadOk(s.threads[t], s.shared.account, s.shared.answers, s.shared.regions, g))
    && (s.shared.refreshLock.None? ==> AtRest(s.shared.account, s.shared.answers, s.shared.regions, g))
    && AllGenuine(s.shared, g)
  }

  // ----- one step -----

  lemma StepFrame(h: Shared, th: Thread, t: nat, c: Choice, g: Signing)
    ensures var (k, _) := Step(h, th, t, c, g);
            && h.answers <= k.answers && h.regions <= k.regions
            && (k.account != h.account ==> UsesRefresh(th.pc))
            && (h.account.id.Some? ==> k.account.id.Some?)
            && (k.signed != h.signed ==> th.pc == ReadingToken)
  {
    hide NeedUpdate, SameId, DerivedKey, Or;
  }

  lemma RestStays(a: Account, h: Shared, k: Shared, g: Signing)
    requires AtRest(a, h.answers, h.regions, g) && h.answers <= k.answers && h.regions <= k.regions
    ensures AtRest(a, k.answers, k.regions, g)
  {
    hide DerivedKey;
  }

  lemma RefreshLocal(h: Shared, th: Thread, t: nat, c: Choice, g: Signing)
    requires LocksOk(h, th, t) && Local(h, th, g)
    ensures var (k, next) := RefreshStep(h, th, t, c);
            Local(k, next, g)
  {
    hide DerivedKey, SigningKey;
    var (k, _) := RefreshStep(h, th, t, c);
    assert h.regions == k.regions;
    if h.refreshLock.None? {
      RestStays(h.account, h, k, g);
    }
  }

  lemma ReloadLocal(h: Shared, th: Thread, t: nat, c: Choice, g: Signing)
    requires LocksOk(h, th, t) && Local(h, th, g)
    ensures var (k, next) := ReloadStep(h, th, t, c, g);
            Local(k, next, g)
  {
    hide DerivedKey, SigningKey, NeedUpdate;
  }

  lemma KeyLocal(h: Shared, th: Thread, t: nat, g: Signing)
    requires LocksOk(h, th, t) && Local(h, th, g)
    ensures var (k, next) := KeyStep(h, th, t, g);
            Local(k, next, g)
  {
    hide DerivedKey;
  }

  lemma SignLocal(h: Shared, th: Thread, t: nat, c: Choice, g: Signing)
    requires LocksOk(h, th, t) && Local(h, th, g)
    ensures var (k, next) := SignStep(h, th, t, c);
            Local(k, next, g)
  {
    hide DerivedKey;
  }

  lemma StepLocal(h: Shared, th: Thread, t: nat, c: Choice, g: Signing)
    requires LocksOk(h, th, t) && Local(h, th, g)
    ensures var (k, next) := Step(h, th, t, c, g);
            Local(k, next, g)
  {
    hide RefreshStep, ReloadStep, KeyStep, SignStep, AtRest, LocksOk;
    RefreshLocal(h, th, t, c, g);
    ReloadLocal(h, th, t, c, g);
    KeyLocal(h, th, t, g);
    SignLocal(h, th, t, c, g);
    var (k, next) := Step(h, th, t, c, g);
    if th.pc == Idle && h.refreshLock.None? {
      RestStays(h.account, h, k, g);
    }
  }

  lemma StepGenuine(h: Shared, th: Thread, t: nat, c: Choice, g: Signing)
    requires Local(h, th, g) && AllGenuine(h, g)
    ensures AllGenuine(Step(h, th, t, c, g).0, g)
  {
    hide NeedUpdate, DerivedKey, SigningKey;
  }

  // ----- other threads -----

  lemma ThreadStays(u: Thread, h: Shared, k: Shared, g: Signing)
    requires ThreadOk(u, h.account, h.answers, h.regions, g)
    requires h.answers <= k.answers && h.regions <= k.regions
    requires k.account == h.account || (!UsesRefresh(u.pc) && (h.account.id.Some? ==> k.account.id.Some?))
    ensures ThreadOk(u, k.account, k.answers, k.regions, g)
  {
    hide DerivedKey, SigningKey;
  }

  lemma NextSafe(s: System, t: nat, c: Choice, g: Signing)
    requires Safe(s, g)
    ensures Safe(Next(s, t, c, g), g)
  {
    hide Step, ThreadOk, AtRest, AllGenuine;
    NextLocked(s, t, c, g);
    if t < |s.threads| {
      var r := Next(s, t, c, g);
      StepFrame(s.shared, s.threads[t], t, c, g);
      StepLocal(s.shared, s.threads[t], t, c, g);
      StepGenuine(s.shared, s.threads[t], t, c, g);
      forall u | 0 <= u < |r.threads|
        ensures ThreadOk(r.threads[u], r.shared.account, r.shared.answers, r.shared.regions, g)
      {
        if u != t {
          assert LocksOk(s.shared, s.threads[u], u) && LocksOk(s.shared, s.threads[t], t);
          ThreadStays(s.threads[u], s.shared, r.shared, g);
        }
      }
    }
  }

  // ----- every run -----

  lemma StartSafe(threads: nat, time: int, g: Signing)
    ensures Safe(Start(threads, time, g), g)
  {
  }

  lemma {:induction false} RunSafe(s: System, moves: seq<Move>, g: Signing)
    requires Safe(s, g)
    ensures Safe(Run(s, moves, g), g)
    decreases |moves|
  {
    hide Safe, Next;
    if moves != [] {
      var before, last := moves[..|moves| - 1], moves[|moves| - 1];
      RunSafe(s, before, g);
      NextSafe(Run(s, before, g), last.thread, last.choice, g);
    }
  }

  /** In every interleaving, every signed request has the id, the token and the key of one provider answer. */
  lemma EverySignedRequestIsGenuine(threads: nat, time: int, moves: seq<Move>, g: Signing)
    ensures var h := Run(Start(threads, time, g), moves, g).shared;
            AllGenuine(h, g)
  {
    hide Run, Start, AllGenuine;
    StartSafe(threads, time, g);
    RunSafe(Start(threads, time, g), moves, g);
  }
}
