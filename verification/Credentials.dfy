/** Threads signing with one `CredentialProviderAccount` (odps/accounts.py): every read and write of
    the shared account is a step of its own, and steps of different threads interleave freely. */
module Credentials {
  import opened Text

  /** What the provider hands out. */
  datatype Credential = Credential(id: string, secret: string, token: Option<string>)

  datatype Region = Region(name: string)

  /** The hash function and the signature prefix; HMAC is not interpreted. */
  datatype Signing = Signing(hmac: (string, string) -> string, prefix: string, seconds: int)

  /** The V4 signing key. */
  function DerivedKey(g: Signing, secret: string, date: string, region: Region): string
  {
    var kDate := g.hmac(g.prefix + secret, date);
    var kRegion := g.hmac(kDate, region.name);
    var kService := g.hmac(kRegion, "odps");
    g.hmac(kService, g.prefix + "_request")
  }

  /** What a request is signed with: the secret itself without a region, a derived key with one. */
  function SigningKey(g: Signing, secret: string, date: string, region: Option<Region>): string
  {
    match region
    case None => secret
    case Some(r) => DerivedKey(g, secret, date, r)
  }

  // ----- state -----

  /** A re-entrant lock that is held. */
  datatype Hold = Hold(owner: nat, depth: nat)

  /** The account's fields; `keyRegion` is a history variable: the region the cached key was derived for. */
  datatype Account = Account(
    id: Option<string>, secret: Option<string>, token: Option<string>,
    lastRefresh: int, expireTime: int,
    keyDate: Option<string>, key: string, keyRegion: Region)

  datatype Pc =
    | Idle
    // _refresh_credential
    | Fetching | WantsRefresh | Refreshing | WritingId | WritingSecret | WritingToken | LeavingRefresh
    // sign_request, reload
    | WantsSigning | Reloading | WantsReload | Rechecking | WritingRefreshTime | WritingExpiry | LeavingReload
    // calc_auth_str without and with a region
    | ReadingSecret | ReadingIdLast | ReadingId
    // _get_v4_signature_key
    | WantsKey | CheckingKey | Deriving | WritingDate | WritingKey | ReadingKey | LeavingKey
    | ReadingToken | LeavingSigning

  /** A thread: where it is, and its local variables. */
  datatype Thread = Thread(
    pc: Pc, answer: Credential, region: Option<Region>, date: string, time: int,
    id: string, key: string, keyRegion: Option<Region>)

  /** A request that left, and the region its key belongs to. */
  datatype Signed = Signed(
    id: string, key: string, token: Option<string>, date: string, region: Option<Region>, keyRegion: Option<Region>)

  /** What the threads share; `answers`, `regions` and `signed` record the past. */
  datatype Shared = Shared(
    account: Account, refreshLock: Option<Hold>, signatureLock: Option<Hold>,
    answers: seq<Credential>, regions: seq<Region>, signed: seq<Signed>)

  datatype System = System(shared: Shared, threads: seq<Thread>)

  /** What the outside decides in a step: the provider, the caller and the clocks. */
  datatype Choice = Choice(
    fails: bool, givesUp: bool, answer: Credential, region: Option<Region>, date: string, time: int)

  const NOBODY := Credential("", "", None)
  const RESTING := Thread(Idle, NOBODY, None, "", 0, "", "", None)

  function Start(threads: nat, time: int, g: Signing): System
  {
    var account := Account(None, None, None, time, time + g.seconds, None, "", Region(""));
    System(Shared(account, None, None, [], [], []), seq(threads, i => RESTING))
  }

  // ----- steps -----

  predicate CanAcquire(l: Option<Hold>, t: nat)
  {
    l.None? || l.value.owner == t
  }

  function Acquired(l: Option<Hold>, t: nat): Option<Hold>
    requires CanAcquire(l, t)
  {
    Some(Hold(t, if l.None? then 1 else l.value.depth + 1))
  }

  function Released(l: Option<Hold>): Option<Hold>
  {
    if l.None? || l.value.depth <= 1 then None else Some(l.value.(depth := l.value.depth - 1))
  }

  predicate NeedUpdate(a: Account, time: int, g: Signing)
  {
    || a.token.None?
    || time > (if a.expireTime < a.lastRefresh + g.seconds then a.expireTime else a.lastRefresh + g.seconds)
  }

  /** The account already has the answer's access id. */
  predicate SameId(a: Account, answer: Credential)
  {
    a.id.Some? && a.id.value != "" && answer.id == a.id.value
  }

  /** `_refresh_credential`, with its retries. */
  function RefreshStep(h: Shared, th: Thread, t: nat, c: Choice): (Shared, Thread)
  {
    var a := h.account;
    match th.pc
    case Fetching =>
      if c.fails then (h, if c.givesUp then th.(pc := Idle) else th)
      else (h.(answers := h.answers + [c.answer]), th.(pc := WantsRefresh, answer := c.answer))
    case WantsRefresh =>
      if CanAcquire(h.refreshLock, t) then (h.(refreshLock := Acquired(h.refreshLock, t)), th.(pc := Refreshing))
      else (h, th)
    case Refreshing =>
      if SameId(a, th.answer) then (h, th.(pc := LeavingRefresh))
      else (h.(account := a.(keyDate := None)), th.(pc := WritingId))
    case WritingId => (h.(account := a.(id := Some(th.answer.id))), th.(pc := WritingSecret))
    case WritingSecret => (h.(account := a.(secret := Some(th.answer.secret))), th.(pc := WritingToken))
    case WritingToken => (h.(account := a.(token := th.answer.token)), th.(pc := LeavingRefresh))
    case LeavingRefresh => (h.(refreshLock := Released(h.refreshLock)), th.(pc := WantsSigning))
    case _ => (h, th)
  }

  /** `sign_request` up to the end of `reload`, which enters the same lock again. */
  function ReloadStep(h: Shared, th: Thread, t: nat, c: Choice, g: Signing): (Shared, Thread)
  {
    var a := h.account;
    var next := if th.region.None? then ReadingSecret else ReadingId;
    match th.pc
    case WantsSigning =>
      if CanAcquire(h.refreshLock, t) then (h.(refreshLock := Acquired(h.refreshLock, t)), th.(pc := Reloading))
      else (h, th)
    case Reloading => (h, th.(pc := if NeedUpdate(a, c.time, g) then WantsReload else next))
    case WantsReload =>
      if CanAcquire(h.refreshLock, t) then
        (h.(refreshLock := Acquired(h.refreshLock, t)), th.(pc := Rechecking, time := c.time))
      else (h, th)
    case Rechecking => (h, th.(pc := if NeedUpdate(a, c.time, g) then WritingRefreshTime else LeavingReload))
    case WritingRefreshTime => (h.(account := a.(lastRefresh := th.time)), th.(pc := WritingExpiry))
    case WritingExpiry => (h.(account := a.(expireTime := th.time + g.seconds)), th.(pc := LeavingReload))
    case LeavingReload => (h.(refreshLock := Released(h.refreshLock)), th.(pc := next))
    case _ => (h, th)
  }

  /** `_get_v4_signature_key`. */
  function KeyStep(h: Shared, th: Thread, t: nat, g: Signing): (Shared, Thread)
  {
    var a := h.account;
    match th.pc
    case WantsKey =>
      if CanAcquire(h.signatureLock, t) then
        (h.(signatureLock := Acquired(h.signatureLock, t)), th.(pc := CheckingKey))
      else (h, th)
    case CheckingKey => (h, th.(pc := if a.keyDate == Some(th.date) then ReadingKey else Deriving))
    case Deriving =>
      (h, th.(pc := WritingDate, key := DerivedKey(g, Or(a.secret, ""), th.date, Or(th.region, Region("")))))
    case WritingDate => (h.(account := a.(keyDate := Some(th.date))), th.(pc := WritingKey))
    case WritingKey =>
      (h.(account := a.(key := th.key, keyRegion := Or(th.region, Region("")))), th.(pc := ReadingKey))
    case ReadingKey => (h, th.(pc := LeavingKey, key := a.key, keyRegion := Some(a.keyRegion)))
    case LeavingKey => (h.(signatureLock := Released(h.signatureLock)), th.(pc := ReadingToken))
    case _ => (h, th)
  }

  /** The rest of `sign_request`: the signature and the token. */
  function SignStep(h: Shared, th: Thread, t: nat, c: Choice): (Shared, Thread)
  {
    var a := h.account;
    match th.pc
    case ReadingSecret => (h, th.(pc := ReadingIdLast, key := Or(a.secret, ""), keyRegion := None))
    case ReadingIdLast => (h, th.(pc := ReadingToken, id := Or(a.id, "")))
    case ReadingId => (h, th.(pc := WantsKey, id := Or(a.id, ""), date := c.date))
    case ReadingToken =>
      (h.(signed := h.signed + [Signed(th.id, th.key, a.token, th.date, th.region, th.keyRegion)]),
       th.(pc := LeavingSigning))
    case LeavingSigning => (h.(refreshLock := Released(h.refreshLock)), th.(pc := Idle))
    case _ => (h, th)
  }

  /** One step of a thread; a blocked thread does nothing. */
  function Step(h: Shared, th: Thread, t: nat, c: Choice, g: Signing): (Shared, Thread)
  {
    match th.pc
    case Idle =>
      (h.(regions := h.regions + if c.region.Some? then [c.region.value] else []),
       RESTING.(pc := Fetching, region := c.region))
    case Fetching | WantsRefresh | Refreshing | WritingId | WritingSecret | WritingToken | LeavingRefresh =>
      RefreshStep(h, th, t, c)
    case WantsSigning | Reloading | WantsReload | Rechecking | WritingRefreshTime | WritingExpiry | LeavingReload =>
      ReloadStep(h, th, t, c, g)
    case WantsKey | CheckingKey | Deriving | WritingDate | WritingKey | ReadingKey | LeavingKey =>
      KeyStep(h, th, t, g)
    case ReadingSecret | ReadingIdLast | ReadingId | ReadingToken | LeavingSigning =>
      SignStep(h, th, t, c)
  }

  function Next(s: System, t: nat, c: Choice, g: Signing): System
  {
    if t < |s.threads| then
      var (h, th) := Step(s.shared, s.threads[t], t, c, g);
      System(h, s.threads[t := th])
    else s
  }

  /** A run: who moves, and what the outside decides. */
  datatype Move = Move(thread: nat, choice: Choice)

  function Run(s: System, moves: seq<Move>, g: Signing): System
    decreases |moves|
  {
    if moves == [] then s
    else
      var last := moves[|moves| - 1];
      Next(Run(s, moves[..|moves| - 1], g), last.thread, last.choice, g)
  }
}
