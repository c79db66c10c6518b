/** One thread, one credential, two regions on one day: the second request is signed with the first
    region's key (odps/accounts.py). */
module CredentialExample {
  import opened Text
  import opened Credentials
  import opened CredentialRegions

  /** A system with one thread. */
  function Alone(h: Shared, th: Thread): System
  {
    System(h, [th])
  }

  /** The thread's next `n` steps, the outside deciding the same each time. */
  function Walk(h: Shared, th: Thread, c: Choice, g: Signing, n: nat): (Shared, Thread)
    decreases n
  {
    if n == 0 then (h, th)
    else
      var (k, next) := Step(h, th, 0, c, g);
      Walk(k, next, c, g, n - 1)
  }

  function Moves(c: Choice, n: nat): (moves: seq<Move>)
    ensures |moves| == n
  {
    seq(n, i => Move(0, c))
  }

  lemma WalkOn(h: Shared, th: Thread, c: Choice, g: Signing, n: nat)
    requires n > 0
    ensures Walk(h, th, c, g, n) == var (k, next) := Step(h, th, 0, c, g); Walk(k, next, c, g, n - 1)
  {
  }

  lemma {:induction false} RunMore(s: System, a: seq<Move>, b: seq<Move>, g: Signing)
    ensures Run(s, a + b, g) == Run(Run(s, a, g), b, g)
    decreases |b|
  {
    hide Next;
    if b == [] {
      assert a + b == a;
    } else {
      var front, last := b[..|b| - 1], b[|b| - 1];
      assert (a + b)[..|a + b| - 1] == a + front && (a + b)[|a + b| - 1] == last;
      RunMore(s, a, front, g);
    }
  }

  lemma {:induction false} WalkIsRun(h: Shared, th: Thread, c: Choice, g: Signing, n: nat)
    ensures var (k, next) := Walk(h, th, c, g, n);
            Run(Alone(h, th), Moves(c, n), g) == Alone(k, next)
    decreases n
  {
    hide Step;
    if n > 0 {
      var (k, next) := Step(h, th, 0, c, g);
      WalkIsRun(k, next, c, g, n - 1);
      assert Moves(c, n) == [Move(0, c)] + Moves(c, n - 1);
      RunMore(Alone(h, th), [Move(0, c)], Moves(c, n - 1), g);
      assert [Move(0, c)][..0] == [];
      assert Alone(h, th).threads[0 := next] == [next];
      assert Run(Alone(h, th), [], g) == Alone(h, th);
      assert Run(Alone(h, th), [Move(0, c)], g) == Alone(k, next);
    }
  }

  lemma WalkMore(h: Shared, th: Thread, c: Choice, g: Signing, m: nat, n: nat)
    ensures Walk(h, th, c, g, m + n) == var (k, next) := Walk(h, th, c, g, m); Walk(k, next, c, g, n)
    decreases m
  {
    hide Step;
    if m > 0 {
      var (k, next) := Step(h, th, 0, c, g);
      WalkMore(k, next, c, g, m - 1, n);
    }
  }

  /** The account holds the answer, and is not due for a reload at time 0. */
  predicate Holds(h: Shared, answer: Credential, g: Signing)
  {
    && h.refreshLock.None? && h.signatureLock.None?
    && h.account.id == Some(answer.id) && h.account.secret == Some(answer.secret) && h.account.token == answer.token
    && h.account.lastRefresh == 0 && h.account.expireTime == g.seconds
  }

  predicate Usable(c: Choice, g: Signing)
  {
    !c.fails && c.answer.id != "" && c.answer.token.Some? && c.region.Some? && c.time == 0 && g.seconds >= 0
  }

  lemma Fetch(h: Shared, c: Choice, g: Signing)
    requires Usable(c, g)
    ensures var (k, th) := Walk(h, RESTING, c, g, 2);
            && k.account == h.account && k.refreshLock == h.refreshLock && k.signatureLock == h.signatureLock
            && k.signed == h.signed
            && th.pc == WantsRefresh && th.answer == c.answer && th.region == c.region
  {
    hide Walk;
    WalkOn(h, RESTING, c, g, 2);
    var (h1, t1) := Step(h, RESTING, 0, c, g);
    WalkOn(h1, t1, c, g, 1);
    var (h2, t2) := Step(h1, t1, 0, c, g);
    assert Walk(h2, t2, c, g, 0) == (h2, t2) by { WalkNowhere(h2, t2, c, g); }
  }

  lemma WalkNowhere(h: Shared, th: Thread, c: Choice, g: Signing)
    ensures Walk(h, th, c, g, 0) == (h, th)
  {
  }

  /** A first answer is written down. */
  lemma FirstRefresh(h: Shared, th: Thread, c: Choice, g: Signing)
    requires th.pc == WantsRefresh && h.refreshLock.None? && h.signatureLock.None? && h.account.id.None?
    requires h.account.lastRefresh == 0 && h.account.expireTime == g.seconds
    ensures var (k, next) := Walk(h, th, c, g, 6);
            && Holds(k, th.answer, g) && k.account.keyDate.None? && k.signed == h.signed
            && next == th.(pc := WantsSigning)
  {
    hide Walk;
    WalkOn(h, th, c, g, 6);
    var (h1, t1) := Step(h, th, 0, c, g);
    WalkOn(h1, t1, c, g, 5);
    var (h2, t2) := Step(h1, t1, 0, c, g);
    WalkOn(h2, t2, c, g, 4);
    var (h3, t3) := Step(h2, t2, 0, c, g);
    WalkOn(h3, t3, c, g, 3);
    var (h4, t4) := Step(h3, t3, 0, c, g);
    WalkOn(h4, t4, c, g, 2);
    var (h5, t5) := Step(h4, t4, 0, c, g);
    WalkOn(h5, t5, c, g, 1);
    var (h6, t6) := Step(h5, t5, 0, c, g);
    WalkNowhere(h6, t6, c, g);
  }

  /** A known answer changes nothing. */
  lemma SameRefresh(h: Shared, th: Thread, c: Choice, g: Signing)
    requires th.pc == WantsRefresh && Holds(h, th.answer, g) && th.answer.id != ""
    ensures Walk(h, th, c, g, 3) == (h, th.(pc := WantsSigning))
  {
    hide Walk;
    WalkOn(h, th, c, g, 3);
    var (h1, t1) := Step(h, th, 0, c, g);
    WalkOn(h1, t1, c, g, 2);
    var (h2, t2) := Step(h1, t1, 0, c, g);
    WalkOn(h2, t2, c, g, 1);
    var (h3, t3) := Step(h2, t2, 0, c, g);
    WalkNowhere(h3, t3, c, g);
  }

  function Inside(h: Shared): Shared
  {
    h.(refreshLock := Some(Hold(0, 1)), signatureLock := Some(Hold(0, 1)))
  }

  lemma ReachKey(h: Shared, th: Thread, c: Choice, g: Signing)
    requires Usable(c, g) && th.pc == WantsSigning && th.region.Some? && Holds(h, c.answer, g)
    ensures Walk(h, th, c, g, 4) == (Inside(h), th.(pc := CheckingKey, id := c.answer.id, date := c.date))
  {
    hide Walk;
    WalkOn(h, th, c, g, 4);
    var (h1, t1) := Step(h, th, 0, c, g);
    WalkOn(h1, t1, c, g, 3);
    var (h2, t2) := Step(h1, t1, 0, c, g);
    WalkOn(h2, t2, c, g, 2);
    var (h3, t3) := Step(h2, t2, 0, c, g);
    WalkOn(h3, t3, c, g, 1);
    var (h4, t4) := Step(h3, t3, 0, c, g);
    WalkNowhere(h4, t4, c, g);
  }

  /** Without a cached key, one is derived for the request's region. */
  lemma DeriveKey(h: Shared, th: Thread, c: Choice, g: Signing)
    requires th.pc == CheckingKey && th.region.Some? && h.account.keyDate.None? && h.account.secret.Some?
    ensures var key := DerivedKey(g, h.account.secret.value, th.date, th.region.value);
            var (k, next) := Walk(h, th, c, g, 4);
            && next.pc == ReadingKey && next.id == th.id && next.date == th.date && next.region == th.region
            && k == h.(account := h.account.(keyDate := Some(th.date), key := key, keyRegion := th.region.value))
  {
    hide Walk, DerivedKey;
    WalkOn(h, th, c, g, 4);
    var (h1, t1) := Step(h, th, 0, c, g);
    WalkOn(h1, t1, c, g, 3);
    var (h2, t2) := Step(h1, t1, 0, c, g);
    WalkOn(h2, t2, c, g, 2);
    var (h3, t3) := Step(h2, t2, 0, c, g);
    WalkOn(h3, t3, c, g, 1);
    var (h4, t4) := Step(h3, t3, 0, c, g);
    WalkNowhere(h4, t4, c, g);
  }

  /** The cached key is read, whatever region it is for, and the request leaves. */
  lemma SignWithCached(h: Shared, th: Thread, c: Choice, g: Signing)
    requires th.pc == ReadingKey
    ensures var a := h.account;
            var e := Signed(th.id, a.key, a.token, th.date, th.region, Some(a.keyRegion));
            var (k, next) := Walk(Inside(h), th, c, g, 4);
            next.pc == Idle && k == h.(refreshLock := None, signatureLock := None, signed := h.signed + [e])
  {
    hide Walk;
    var s := Inside(h);
    WalkOn(s, th, c, g, 4);
    var (h1, t1) := Step(s, th, 0, c, g);
    WalkOn(h1, t1, c, g, 3);
    var (h2, t2) := Step(h1, t1, 0, c, g);
    WalkOn(h2, t2, c, g, 2);
    var (h3, t3) := Step(h2, t2, 0, c, g);
    WalkOn(h3, t3, c, g, 1);
    var (h4, t4) := Step(h3, t3, 0, c, g);
    WalkNowhere(h4, t4, c, g);
  }

  lemma FirstRequest(c: Choice, g: Signing)
    requires Usable(c, g)
    ensures var h := Start(1, 0, g).shared;
            var (k, next) := Walk(h, RESTING, c, g, 20);
            && next.pc == Idle && Holds(k, c.answer, g) && |k.signed| == 1
            && k.account.keyDate == Some(c.date) && k.account.keyRegion == c.region.value
            && k.account.key == DerivedKey(g, c.answer.secret, c.date, c.region.value)
  {
    hide Walk, DerivedKey;
    var h := Start(1, 0, g).shared;
    Fetch(h, c, g);
    WalkMore(h, RESTING, c, g, 2, 18);
    var (h1, t1) := Walk(h, RESTING, c, g, 2);
    FirstRefresh(h1, t1, c, g);
    WalkMore(h1, t1, c, g, 6, 12);
    var (h2, t2) := Walk(h1, t1, c, g, 6);
    FirstSignature(h2, t2, c, g);
  }

  /** Signing without a cached key. */
  lemma FirstSignature(h: Shared, th: Thread, c: Choice, g: Signing)
    requires Usable(c, g) && th.pc == WantsSigning && th.region == c.region && Holds(h, c.answer, g)
    requires h.account.keyDate.None?
    ensures var (k, next) := Walk(h, th, c, g, 12);
            && next.pc == Idle && Holds(k, c.answer, g) && |k.signed| == |h.signed| + 1
            && k.account.keyDate == Some(c.date) && k.account.keyRegion == c.region.value
            && k.account.key == DerivedKey(g, c.answer.secret, c.date, c.region.value)
  {
    hide Walk, DerivedKey;
    ReachKey(h, th, c, g);
    WalkMore(h, th, c, g, 4, 8);
    var (h3, t3) := Walk(h, th, c, g, 4);
    DeriveKey(h3, t3, c, g);
    WalkMore(h3, t3, c, g, 4, 4);
    var (h4, t4) := Walk(h3, t3, c, g, 4);
    assert Inside(h4) == h4;
    SignWithCached(h4, t4, c, g);
  }

  /** The step that finds a key of the date. */
  lemma FindCached(h: Shared, th: Thread, c: Choice, g: Signing)
    requires th.pc == CheckingKey && h.account.keyDate == Some(th.date)
    ensures Walk(h, th, c, g, 1) == (h, th.(pc := ReadingKey))
  {
    WalkOn(h, th, c, g, 1);
  }

  lemma SecondRequest(h: Shared, c: Choice, g: Signing)
    requires Usable(c, g) && Holds(h, c.answer, g) && h.account.keyDate == Some(c.date)
    ensures var a := h.account;
            var e := Signed(c.answer.id, a.key, a.token, c.date, c.region, Some(a.keyRegion));
            Walk(h, RESTING, c, g, 14).0.signed == h.signed + [e]
  {
    hide Walk, DerivedKey;
    Fetch(h, c, g);
    WalkMore(h, RESTING, c, g, 2, 12);
    var (h1, t1) := Walk(h, RESTING, c, g, 2);
    SameRefresh(h1, t1, c, g);
    WalkMore(h1, t1, c, g, 3, 9);
    var (h2, t2) := Walk(h1, t1, c, g, 3);
    ReachKey(h2, t2, c, g);
    WalkMore(h2, t2, c, g, 4, 5);
    var (h3, t3) := Walk(h2, t2, c, g, 4);
    FindCached(h3, t3, c, g);
    WalkMore(h3, t3, c, g, 1, 4);
    var (h4, t4) := Walk(h3, t3, c, g, 1);
    assert Inside(h4) == h4;
    SignWithCached(h4, t4, c, g);
  }

  /** A thread that finished a request starts the next one as if it were resting. */
  lemma IdleIsResting(h: Shared, th: Thread, c: Choice, g: Signing, n: nat)
    requires th.pc == Idle && n > 0
    ensures Walk(h, th, c, g, n) == Walk(h, RESTING, c, g, n)
  {
    WalkOn(h, th, c, g, n);
    WalkOn(h, RESTING, c, g, n);
  }

  /** Two requests on one day for different regions: the second is signed with the key of the first's region, which is
      the wrong key when the hash function separates regions. */
  lemma SecondRegionGetsFirstKey(c: Choice, other: Region, g: Signing)
    requires Usable(c, g) && other != c.region.value
    ensures exists moves :: var signed := Run(Start(1, 0, g), moves, g).shared.signed;
              && |signed| == 2 && signed[1].region == Some(other)
              && signed[1].key == DerivedKey(g, c.answer.secret, c.date, c.region.value)
              && (Separates(g) ==> signed[1].key != DerivedKey(g, c.answer.secret, c.date, other))
  {
    hide Walk, DerivedKey, Run, Step;
    var d := c.(region := Some(other));
    var h := Start(1, 0, g).shared;
    assert Start(1, 0, g) == Alone(h, RESTING);
    FirstRequest(c, g);
    var (k, th) := Walk(h, RESTING, c, g, 20);
    WalkIsRun(h, RESTING, c, g, 20);
    SecondRequest(k, d, g);
    IdleIsResting(k, th, d, g, 14);
    WalkIsRun(k, th, d, g, 14);
    RunMore(Alone(h, RESTING), Moves(c, 20), Moves(d, 14), g);
    var moves := Moves(c, 20) + Moves(d, 14);
    assert Run(Start(1, 0, g), moves, g).shared.signed == Walk(k, th, d, g, 14).0.signed;
  }
}
