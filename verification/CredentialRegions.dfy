/** The signing key is cached by its date alone: which requests are signed with the key of another region,
    and what must have happened before (odps/accounts.py). */
module CredentialRegions {
  import opened Text
  import opened Credentials
  import opened CredentialSafety

  // ----- one request -----

  /** A thread's steps from `CheckingKey` to `LeavingKey`. */
  function KeySteps(h: Shared, th: Thread, t: nat, g: Signing, n: nat): (Shared, Thread)
    decreases n
  {
    if n == 0 || th.pc == LeavingKey then (h, th)
    else
      var (k, next) := KeyStep(h, th, t, g);
      KeySteps(k, next, t, g, n - 1)
  }

  lemma KeyStepsOn(h: Shared, th: Thread, t: nat, g: Signing, n: nat)
    requires n > 0 && th.pc != LeavingKey
    ensures KeySteps(h, th, t, g, n) == var (k, next) := KeyStep(h, th, t, g); KeySteps(k, next, t, g, n - 1)
  {
  }

  lemma KeyStepsEnd(h: Shared, th: Thread, t: nat, g: Signing, n: nat)
    requires th.pc == LeavingKey
    ensures KeySteps(h, th, t, g, n) == (h, th)
  {
  }

  /** The cached key is handed out. */
  lemma ReadCached(h: Shared, th: Thread, t: nat, g: Signing, n: nat)
    requires th.pc == ReadingKey && n > 0
    ensures KeySteps(h, th, t, g, n)
         == (h, th.(pc := LeavingKey, key := h.account.key, keyRegion := Some(h.account.keyRegion)))
  {
    hide KeySteps;
    KeyStepsOn(h, th, t, g, n);
    var (k, next) := KeyStep(h, th, t, g);
    KeyStepsEnd(k, next, t, g, n - 1);
  }

  /** A key is derived, stored and handed out. */
  lemma DeriveAndRead(h: Shared, th: Thread, t: nat, g: Signing)
    requires th.pc == Deriving && th.region.Some? && h.account.secret.Some?
    ensures var (k, next) := KeySteps(h, th, t, g, 4);
            && next.pc == LeavingKey && next.keyRegion == th.region
            && next.key == DerivedKey(g, h.account.secret.value, th.date, th.region.value)
  {
    hide KeySteps, DerivedKey;
    KeyStepsOn(h, th, t, g, 4);
    var (h1, t1) := KeyStep(h, th, t, g);
    KeyStepsOn(h1, t1, t, g, 3);
    var (h2, t2) := KeyStep(h1, t1, t, g);
    KeyStepsOn(h2, t2, t, g, 2);
    var (h3, t3) := KeyStep(h2, t2, t, g);
    ReadCached(h3, t3, t, g, 1);
  }

  /** The hash function gives different regions different keys. */
  ghost predicate Separates(g: Signing)
  {
    forall secret: string, date: string, r: Region, q: Region ::
      r != q ==> DerivedKey(g, secret, date, r) != DerivedKey(g, secret, date, q)
  }

  /** The key handed out is one of the account's secret and the request's date. It is the one of the request's region
      exactly when no key of another region is cached for that date. */
  lemma KeyIsRightIff(h: Shared, th: Thread, t: nat, g: Signing)
    requires th.pc == CheckingKey && Local(h, th, g)
    ensures var (k, next) := KeySteps(h, th, t, g, 5);
            var safe := h.account.keyDate == Some(th.date) ==> Some(h.account.keyRegion) == th.region;
            var secret := h.account.secret.value;
            && next.pc == LeavingKey && next.keyRegion.Some?
            && next.key == DerivedKey(g, secret, th.date, next.keyRegion.value)
            && (next.keyRegion == th.region <==> safe)
            && (Separates(g) ==> (next.key == DerivedKey(g, secret, th.date, th.region.value) <==> safe))
  {
    hide DerivedKey, KeySteps;
    KeyStepsOn(h, th, t, g, 5);
    var (k, next) := KeyStep(h, th, t, g);
    if h.account.keyDate == Some(th.date) {
      ReadCached(k, next, t, g, 4);
    } else {
      DeriveAndRead(k, next, t, g);
    }
  }

  // ----- every run -----

  /** A request of this id, date and region has been signed. */
  predicate SignedBefore(signed: seq<Signed>, id: string, date: string, region: Region)
  {
    exists j :: 0 <= j < |signed| && signed[j].id == id && signed[j].date == date && signed[j].region == Some(region)
  }

  /** A request's key is its own region's, or that of an earlier request of the same id and date. */
  predicate Explained(signed: seq<Signed>, id: string, date: string, region: Option<Region>, keyRegion: Option<Region>)
  {
    keyRegion.Some? ==> keyRegion == region || SignedBefore(signed, id, date, keyRegion.value)
  }

  predicate AllExplained(signed: seq<Signed>)
  {
    forall i | 0 <= i < |signed| ::
      var e := signed[i];
      Explained(signed[..i], e.id, e.date, e.region, e.keyRegion)
  }

  /** A cached key is that of a request already signed. */
  predicate CacheExplained(a: Account, signed: seq<Signed>)
  {
    a.keyDate.Some? ==> a.id.Some? && SignedBefore(signed, a.id.value, a.keyDate.value, a.keyRegion)
  }

  /** A cached key is explained, or it is the thread's own. */
  predicate OwnOrExplained(a: Account, th: Thread, signed: seq<Signed>)
  {
    CacheExplained(a, signed) || (a.keyDate == Some(th.date) && Some(a.keyRegion) == th.region)
  }

  /** What a thread inside the refresh lock knows about the cached key, and about the key it read. */
  predicate ThreadExplained(a: Account, th: Thread, signed: seq<Signed>)
  {
    match th.pc
    case Idle | Fetching | WantsRefresh | WantsSigning | WritingKey => true
    case ReadingKey => OwnOrExplained(a, th, signed)
    case LeavingKey | ReadingToken =>
      OwnOrExplained(a, th, signed) && Explained(signed, th.id, th.date, th.region, th.keyRegion)
    case _ => CacheExplained(a, signed)
  }

  predicate LocalExplained(h: Shared, th: Thread)
  {
    && ThreadExplained(h.account, th, h.signed)
    && (h.refreshLock.None? ==> CacheExplained(h.account, h.signed))
  }

  lemma MoreSigned(signed: seq<Signed>, e: Signed, id: string, date: string, region: Region)
    ensures SignedBefore(signed + [e], id, date, region)
       <==> SignedBefore(signed, id, date, region) || (e.id == id && e.date == date && e.region == Some(region))
  {
    if SignedBefore(signed, id, date, region) {
      var j :| 0 <= j < |signed| && signed[j].id == id && signed[j].date == date && signed[j].region == Some(region);
      assert (signed + [e])[j] == signed[j];
    }
    assert (signed + [e])[|signed|] == e;
  }

  lemma RefreshExplained(h: Shared, th: Thread, t: nat, c: Choice, g: Signing)
    requires LocksOk(h, th, t) && ThreadOk(th, h.account, h.answers, h.regions, g) && LocalExplained(h, th)
    ensures var (k, next) := RefreshStep(h, th, t, c);
            LocalExplained(k, next)
  {
    hide SignedBefore, DerivedKey, SigningKey, AtRest, Settled, SameId;
  }

  lemma ReloadExplained(h: Shared, th: Thread, t: nat, c: Choice, g: Signing)
    requires LocksOk(h, th, t) && LocalExplained(h, th)
    ensures var (k, next) := ReloadStep(h, th, t, c, g);
            LocalExplained(k, next)
  {
    hide SignedBefore, NeedUpdate;
  }

  lemma KeyExplained(h: Shared, th: Thread, t: nat, g: Signing)
    requires LocksOk(h, th, t) && ThreadOk(th, h.account, h.answers, h.regions, g) && LocalExplained(h, th)
    ensures var (k, next) := KeyStep(h, th, t, g);
            LocalExplained(k, next)
  {
    hide SignedBefore, DerivedKey, SigningKey, Whole;
  }

  lemma SignExplained(h: Shared, th: Thread, t: nat, c: Choice, g: Signing)
    requires LocksOk(h, th, t) && ThreadOk(th, h.account, h.answers, h.regions, g) && LocalExplained(h, th)
    ensures var (k, next) := SignStep(h, th, t, c);
            LocalExplained(k, next)
  {
    hide SignedBefore, DerivedKey, SigningKey, Whole;
    if th.pc == ReadingToken {
      var e := Signed(th.id, th.key, h.account.token, th.date, th.region, th.keyRegion);
      if h.account.keyDate.Some? {
        MoreSigned(h.signed, e, h.account.id.value, h.account.keyDate.value, h.account.keyRegion);
      }
    }
  }

  lemma StepExplained(h: Shared, th: Thread, t: nat, c: Choice, g: Signing)
    requires LocksOk(h, th, t) && ThreadOk(th, h.account, h.answers, h.regions, g) && LocalExplained(h, th)
    ensures var (k, next) := Step(h, th, t, c, g);
            LocalExplained(k, next)
  {
    hide RefreshStep, ReloadStep, KeyStep, SignStep, ThreadOk, LocksOk, CacheExplained;
    RefreshExplained(h, th, t, c, g);
    ReloadExplained(h, th, t, c, g);
    KeyExplained(h, th, t, g);
    SignExplained(h, th, t, c, g);
  }

  lemma SignedGrows(h: Shared, th: Thread, t: nat, c: Choice, g: Signing)
    ensures var (k, _) := Step(h, th, t, c, g);
            && (th.pc != ReadingToken ==> k.signed == h.signed)
            && (th.pc == ReadingToken ==>
                  k.signed == h.signed + [Signed(th.id, th.key, h.account.token, th.date, th.region, th.keyRegion)])
  {
    hide NeedUpdate, SameId, DerivedKey, Or;
  }

  lemma OneMoreExplained(signed: seq<Signed>, e: Signed)
    requires AllExplained(signed) && Explained(signed, e.id, e.date, e.region, e.keyRegion)
    ensures AllExplained(signed + [e])
  {
    hide Explained;
    var more := signed + [e];
    forall i | 0 <= i < |more| ensures var x := more[i]; Explained(more[..i], x.id, x.date, x.region, x.keyRegion) {
      if i < |signed| {
        assert more[..i] == signed[..i];
      } else {
        assert more[..i] == signed;
      }
    }
  }

  ghost predicate Traced(s: System, g: Signing)
  {
    && Safe(s, g)
    && AllExplained(s.shared.signed)
    && (forall t | 0 <= t < |s.threads| :: ThreadExplained(s.shared.account, s.threads[t], s.shared.signed))
    && (s.shared.refreshLock.None? ==> CacheExplained(s.shared.account, s.shared.signed))
  }

  lemma NextExplained(s: System, t: nat, c: Choice, g: Signing)
    requires Traced(s, g) && t < |s.threads|
    ensures AllExplained(Next(s, t, c, g).shared.signed)
  {
    hide Step, Safe, AllExplained, Explained, OwnOrExplained;
    var th := s.threads[t];
    assert ThreadExplained(s.shared.account, th, s.shared.signed);
    SignedGrows(s.shared, th, t, c, g);
    if th.pc == ReadingToken {
      OneMoreExplained(s.shared.signed,
                       Signed(th.id, th.key, s.shared.account.token, th.date, th.region, th.keyRegion));
    }
  }

  /** Only one thread is inside, so what it knows stays when others move. */
  lemma OtherExplained(s: System, t: nat, u: nat, c: Choice, g: Signing)
    requires Locked(s) && t < |s.threads| && u < |s.threads| && u != t
    requires ThreadExplained(s.shared.account, s.threads[u], s.shared.signed)
    ensures var r := Next(s, t, c, g);
            ThreadExplained(r.shared.account, s.threads[u], r.shared.signed)
  {
    hide Step, UsesSignature, RefreshDepth;
    assert LocksOk(s.shared, s.threads[u], u) && LocksOk(s.shared, s.threads[t], t);
    if UsesRefresh(s.threads[u].pc) {
      StepFrame(s.shared, s.threads[t], t, c, g);
    }
  }

  lemma NextTraced(s: System, t: nat, c: Choice, g: Signing)
    requires Traced(s, g)
    ensures Traced(Next(s, t, c, g), g)
  {
    hide Step, ThreadOk, LocksOk, AllExplained, ThreadExplained, CacheExplained, AtRest, AllGenuine;
    NextSafe(s, t, c, g);
    if t < |s.threads| {
      var r := Next(s, t, c, g);
      NextExplained(s, t, c, g);
      StepExplained(s.shared, s.threads[t], t, c, g);
      forall u | 0 <= u < |r.threads| ensures ThreadExplained(r.shared.account, r.threads[u], r.shared.signed) {
        if u != t {
          OtherExplained(s, t, u, c, g);
        }
      }
    }
  }

  lemma {:induction false} RunTraced(s: System, moves: seq<Move>, g: Signing)
    requires Traced(s, g)
    ensures Traced(Run(s, moves, g), g)
    decreases |moves|
  {
    hide Traced, Next;
    if moves != [] {
      var before, last := moves[..|moves| - 1], moves[|moves| - 1];
      RunTraced(s, before, g);
      NextTraced(Run(s, before, g), last.thread, last.choice, g);
    }
  }

  /** In every interleaving, a request signed with the key of another region comes after a request of the same id
      and the same date that named that other region. */
  lemma OtherKeyHasCause(threads: nat, time: int, moves: seq<Move>, i: nat, g: Signing)
    requires i < |Run(Start(threads, time, g), moves, g).shared.signed|
    ensures var signed := Run(Start(threads, time, g), moves, g).shared.signed;
            var e := signed[i];
            e.keyRegion != e.region ==>
              exists j :: 0 <= j < i && signed[j].id == e.id && signed[j].date == e.date
                          && signed[j].region == e.keyRegion
  {
    hide Run, Start, Safe, Genuine;
    StartSafe(threads, time, g);
    StartTraced(threads, time, g);
    RunTraced(Start(threads, time, g), moves, g);
    EverySignedRequestIsGenuine(threads, time, moves, g);
    var h := Run(Start(threads, time, g), moves, g).shared;
    var e := h.signed[i];
    GenuineHasKeyRegion(h, e, g);
    assert Explained(h.signed[..i], e.id, e.date, e.region, e.keyRegion);
  }

  lemma GenuineHasKeyRegion(h: Shared, e: Signed, g: Signing)
    requires AllGenuine(h, g) && e in h.signed
    ensures e.region.Some? <==> e.keyRegion.Some?
  {
    assert Genuine(e, h.answers, h.regions, g);
  }

  lemma StartTraced(threads: nat, time: int, g: Signing)
    requires Safe(Start(threads, time, g), g)
    ensures Traced(Start(threads, time, g), g)
  {
    hide Safe;
  }

  /** Requests signed under one id on one date name one region. */
  predicate OneRegionADate(signed: seq<Signed>)
  {
    forall i, j | 0 <= i < j < |signed| ::
      (signed[i].id == signed[j].id && signed[i].date == signed[j].date && signed[i].region.Some?
       && signed[j].region.Some?) ==>
        signed[i].region == signed[j].region
  }

  /** When requests signed under one id on one date name one region, each request is signed with the right key of the
      answer that its id and token come from. */
  lemma OneRegionMeansRightKeys(threads: nat, time: int, moves: seq<Move>, g: Signing)
    requires OneRegionADate(Run(Start(threads, time, g), moves, g).shared.signed)
    ensures var h := Run(Start(threads, time, g), moves, g).shared;
            forall e | e in h.signed ::
              exists secret: string :: Credential(e.id, secret, e.token) in h.answers
                                       && e.key == SigningKey(g, secret, e.date, e.region)
  {
    hide Run, Start, SigningKey, AllGenuine;
    EverySignedRequestIsGenuine(threads, time, moves, g);
    var h := Run(Start(threads, time, g), moves, g).shared;
    forall e | e in h.signed
      ensures exists secret: string :: Credential(e.id, secret, e.token) in h.answers
                                       && e.key == SigningKey(g, secret, e.date, e.region)
    {
      var i :| 0 <= i < |h.signed| && h.signed[i] == e;
      OtherKeyHasCause(threads, time, moves, i, g);
      GenuineHasKeyRegion(h, e, g);
      assert e.keyRegion == e.region;
      GenuineKey(h, e, g);
    }
  }

  lemma GenuineKey(h: Shared, e: Signed, g: Signing)
    requires AllGenuine(h, g) && e in h.signed
    ensures exists secret: string :: Credential(e.id, secret, e.token) in h.answers
                                     && e.key == SigningKey(g, secret, e.date, e.keyRegion)
  {
    hide SigningKey;
    assert Genuine(e, h.answers, h.regions, g);
  }

  // ----- the key -----

  /** HMAC over one message after the other, each result the key of the next. */
  function Chained(g: Signing, key: string, messages: seq<string>): string
    decreases |messages|
  {
    if messages == [] then key else Chained(g, g.hmac(key, messages[0]), messages[1..])
  }

  /** The signing key is chained over date, region, service and request, from the prefixed secret. */
  lemma KeyIsChained(g: Signing, secret: string, date: string, region: Region)
    ensures DerivedKey(g, secret, date, region)
         == Chained(g, g.prefix + secret, [date, region.name, "odps", g.prefix + "_request"])
  {
    var a, b, c, d := date, region.name, "odps", g.prefix + "_request";
    assert [a, b, c, d][1..] == [b, c, d] && [b, c, d][1..] == [c, d] && [c, d][1..] == [d] && [d][1..] == [];
    var k := g.hmac(g.prefix + secret, a);
    assert Chained(g, g.prefix + secret, [a, b, c, d]) == Chained(g, k, [b, c, d]);
    var k1 := g.hmac(k, b);
    assert Chained(g, k, [b, c, d]) == Chained(g, k1, [c, d]);
    var k2 := g.hmac(k1, c);
    assert Chained(g, k1, [c, d]) == Chained(g, k2, [d]) == Chained(g, g.hmac(k2, d), []);
  }

  /** Keys differ whenever secret, date or region does, for a hash function without collisions. */
  lemma KeysDiffer(
    g: Signing, secret: string, date: string, region: Region, secret1: string, date1: string, region1: Region)
    requires forall k, m, k1, m1 :: g.hmac(k, m) == g.hmac(k1, m1) ==> k == k1 && m == m1
    requires DerivedKey(g, secret, date, region) == DerivedKey(g, secret1, date1, region1)
    ensures secret == secret1 && date == date1 && region == region1
  {
    assert g.prefix + secret == g.prefix + secret1;
    assert (g.prefix + secret)[|g.prefix|..] == secret && (g.prefix + secret1)[|g.prefix|..] == secret1;
  }
}
