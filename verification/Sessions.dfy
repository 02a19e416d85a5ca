/**
 Session tokens over the shared key store: issuing a pair, single-use refresh, revocation
 of all sessions of a user, logout and the check made on every request. Each handler is
 one atomic step; time is in milliseconds and only moves forward; keys expire.
 */
module Sessions {
  import opened Prelude

  type User = string

  type Id = string

  const SECOND: int := 1000
  const MINUTE: int := 60 * SECOND
  const DAY: int := 24 * 60 * MINUTE

  /** Lifetime of the revocation mark. */
  const REVOCATION_TTL: int := 30 * DAY

  /** Lifetime of a token restricted to changing the password. */
  const RESTRICTED_TTL: int := 15 * MINUTE

  /** Token lifetimes. */
  datatype Config = Config(access: int, refresh: int)

  ghost predicate ConfigOk(cfg: Config) {
    0 < cfg.refresh && cfg.access <= REVOCATION_TTL
  }

  datatype Use = AccessUse | RefreshUse

  /** Signed claims; token times are whole seconds. */
  datatype Claims = Claims(use: Use, user: User, id: Id, iat: int, exp: int, restricted: bool)

  /** A stored value with its expiry time. */
  datatype Entry<T> = Entry(value: T, expires: int)

  /** The clock, the four families of keys, every identifier drawn and every token signed so far. */
  datatype State = State(
    now: int,
    refresh: map<Id, Entry<User>>,
    index: map<User, Entry<set<Id>>>,
    revoked: map<User, Entry<int>>,
    blacklist: map<Id, Entry<bool>>,
    used: set<Id>,
    issued: set<Claims>)

  function Init(now: int): State {
    State(now, map[], map[], map[], map[], {}, {})
  }

  /** A token time is truncated to the second. */
  function Sec(t: int): int { t / SECOND }

  predicate Live<K, T>(m: map<K, Entry<T>>, k: K, now: int) {
    k in m && now < m[k].expires
  }

  function Members(s: State, u: User): set<Id> {
    if Live(s.index, u, s.now) then s.index[u].value else {}
  }

  // ------------------------------------------------------------------- handlers

  function AccessClaims(s: State, cfg: Config, u: User, id: Id): Claims {
    Claims(AccessUse, u, id, Sec(s.now), Sec(s.now + cfg.access), false)
  }

  function RefreshClaims(s: State, cfg: Config, u: User, id: Id): Claims {
    Claims(RefreshUse, u, id, Sec(s.now), Sec(s.now + cfg.refresh), false)
  }

  function RestrictedClaims(s: State, u: User, id: Id): Claims {
    Claims(AccessUse, u, id, Sec(s.now), Sec(s.now + RESTRICTED_TTL), true)
  }

  /** Identifiers are random and never repeat. */
  predicate Fresh(s: State, aid: Id, rid: Id) {
    aid !in s.used && rid !in s.used && aid != rid
  }

  function IssuePair(s: State, cfg: Config, u: User, aid: Id, rid: Id): State {
    var a, r := AccessClaims(s, cfg, u, aid), RefreshClaims(s, cfg, u, rid);
    s.(refresh := s.refresh[rid := Entry(u, s.now + cfg.refresh)],
       index := s.index[u := Entry(Members(s, u) + {rid}, s.now + cfg.refresh)],
       used := s.used + {aid, rid},
       issued := s.issued + {a, r})
  }

  function IssueRestricted(s: State, u: User, aid: Id): State {
    var a := RestrictedClaims(s, u, aid);
    s.(used := s.used + {aid}, issued := s.issued + {a})
  }

  /** A token is accepted by the parser: issued here and not yet expired. */
  predicate Parses(s: State, c: Claims) {
    c in s.issued && s.now < c.exp * SECOND
  }

  /** The refresh handler consumes the stored identifier. */
  predicate Redeemable(s: State, c: Claims) {
    Parses(s, c) && c.use == RefreshUse && Live(s.refresh, c.id, s.now)
  }

  function Consume(s: State, c: Claims): State {
    s.(refresh := s.refresh - {c.id})
  }

  /** `allowed` says that the user exists, is not locked and need not change the password. */
  function Refresh(s: State, cfg: Config, c: Claims, allowed: bool, aid: Id, rid: Id): State {
    if !Redeemable(s, c) then s
    else if s.refresh[c.id].value != c.user || !allowed then Consume(s, c)
    else IssuePair(Consume(s, c), cfg, c.user, aid, rid)
  }

  function RevokeAll(s: State, u: User): State {
    s.(refresh := s.refresh - Members(s, u),
       index := s.index - {u},
       revoked := s.revoked[u := Entry(Sec(s.now), s.now + REVOCATION_TTL)])
  }

  /** The request check, in the order the middleware makes it. */
  predicate Authorized(s: State, c: Claims, changesPassword: bool) {
    && Parses(s, c)
    && c.use == AccessUse
    && !Live(s.blacklist, c.id, s.now)
    && !(Live(s.revoked, c.user, s.now) && s.revoked[c.user].value > 0 && c.iat < s.revoked[c.user].value)
    && (c.restricted ==> changesPassword)
  }

  /** Logout bars the token until it expires, then revokes everything of its user. */
  function Logout(s: State, c: Claims): State {
    if !Authorized(s, c, false) then s
    else RevokeAll(s.(blacklist := s.blacklist[c.id := Entry(true, c.exp * SECOND)]), c.user)
  }

  datatype Action =
    | Advance(ms: nat)
    | DoLogin(user: User, aid: Id, rid: Id)
    | DoRestrictedLogin(user: User, aid: Id)
    | DoRefresh(c: Claims, allowed: bool, aid: Id, rid: Id)
    | DoRevoke(user: User)
    | DoLogout(c: Claims)

  predicate Enabled(s: State, a: Action) {
    match a
    case DoLogin(_, aid, rid) => Fresh(s, aid, rid)
    case DoRestrictedLogin(_, aid) => aid !in s.used
    case DoRefresh(_, _, aid, rid) => Fresh(s, aid, rid)
    case _ => true
  }

  function Apply(s: State, cfg: Config, a: Action): State {
    match a
    case Advance(ms) => s.(now := s.now + ms)
    case DoLogin(u, aid, rid) => IssuePair(s, cfg, u, aid, rid)
    case DoRestrictedLogin(u, aid) => IssueRestricted(s, u, aid)
    case DoRefresh(c, allowed, aid, rid) => Refresh(s, cfg, c, allowed, aid, rid)
    case DoRevoke(u) => RevokeAll(s, u)
    case DoLogout(c) => Logout(s, c)
  }

  function Run(s: State, cfg: Config, acts: seq<Action>): Option<State>
    decreases |acts|
  {
    if acts == [] then Some(s)
    else if Enabled(s, acts[0]) then Run(Apply(s, cfg, acts[0]), cfg, acts[1..])
    else None
  }

  // ----------------------------------------------------------------- invariants

  /** Every live refresh identifier is in its user's index, which lives at least as long. */
  ghost predicate Indexed(s: State) {
    forall id :: Live(s.refresh, id, s.now) ==>
                   var u := s.refresh[id].value;
                   u in s.index && id in s.index[u].value && s.refresh[id].expires <= s.index[u].expires
  }

  /** Nothing reaches further into the future than the configured lifetimes, and no mark is dated ahead. */
  ghost predicate Bounded(s: State, cfg: Config) {
    && 0 <= s.now
    && (forall c :: c in s.issued && c.use == AccessUse ==> 0 <= c.iat && c.exp * SECOND <= s.now + REVOCATION_TTL)
    && (forall u :: u in s.index ==> s.index[u].expires <= s.now + cfg.refresh)
    && (forall u :: u in s.revoked ==> s.revoked[u].value <= Sec(s.now) && s.revoked[u].expires <= s.now + REVOCATION_TTL)
  }

  /** Identifiers name one token each, and a stored refresh identifier names its owner. */
  ghost predicate Tracked(s: State) {
    && (forall id :: id in s.refresh ==> id in s.used)
    && (forall id :: id in s.blacklist ==> id in s.used)
    && (forall c :: c in s.issued ==> c.id in s.used)
    && (forall c :: c in s.issued && c.id in s.refresh ==> s.refresh[c.id].value == c.user)
    && (forall c, d :: c in s.issued && d in s.issued && c.id == d.id ==> c == d)
  }

  ghost predicate Inv(s: State, cfg: Config) {
    Indexed(s) && Bounded(s, cfg) && Tracked(s)
  }

  lemma {:induction false} SecMonotone(t: int, t': int)
    requires t <= t'
    ensures Sec(t) <= Sec(t')
    ensures Sec(t) * SECOND <= t
  {
  }

  lemma {:induction false} AdvanceKeepsIndex(s: State, ms: nat)
    requires Indexed(s)
    ensures Indexed(s.(now := s.now + ms))
  {
    var s' := s.(now := s.now + ms);
    assert forall id :: Live(s'.refresh, id, s'.now) ==> Live(s.refresh, id, s.now);
  }

  lemma {:induction false} AdvanceKeepsBounds(s: State, cfg: Config, ms: nat)
    requires Bounded(s, cfg)
    ensures Bounded(s.(now := s.now + ms), cfg)
  {
    SecMonotone(s.now, s.now + ms);
  }

  lemma {:induction false} AdvanceKeepsInv(s: State, cfg: Config, ms: nat)
    requires Inv(s, cfg)
    ensures Inv(s.(now := s.now + ms), cfg)
  {
    AdvanceKeepsIndex(s, ms);
    AdvanceKeepsBounds(s, cfg, ms);
    assert Tracked(s.(now := s.now + ms));
  }

  lemma {:induction false} IssueRestrictedKeepsBounds(s: State, cfg: Config, u: User, aid: Id)
    requires Bounded(s, cfg)
    ensures Bounded(IssueRestricted(s, u, aid), cfg)
  {
    SecMonotone(s.now + RESTRICTED_TTL, s.now + RESTRICTED_TTL);
    SecMonotone(0, s.now);
  }

  lemma {:induction false} IssueRestrictedKeepsTrack(s: State, u: User, aid: Id)
    requires Tracked(s) && aid !in s.used
    ensures Tracked(IssueRestricted(s, u, aid))
  {
  }

  lemma {:induction false} IssueRestrictedKeepsInv(s: State, cfg: Config, u: User, aid: Id)
    requires Inv(s, cfg) && aid !in s.used
    ensures Inv(IssueRestricted(s, u, aid), cfg)
  {
    SameIndex(s, IssueRestricted(s, u, aid));
    IssueRestrictedKeepsBounds(s, cfg, u, aid);
    IssueRestrictedKeepsTrack(s, u, aid);
  }

  /** The index is about refresh keys, index keys and the clock only. */
  lemma {:induction false} SameIndex(s: State, s': State)
    requires Indexed(s) && s'.refresh == s.refresh && s'.index == s.index && s'.now == s.now
    ensures Indexed(s')
  {
    assert forall id :: Live(s'.refresh, id, s'.now) ==> Live(s.refresh, id, s.now);
  }

  lemma {:induction false} IssuePairKeepsIndex(s: State, cfg: Config, u: User, aid: Id, rid: Id)
    requires Indexed(s) && Bounded(s, cfg) && 0 < cfg.refresh
    ensures Indexed(IssuePair(s, cfg, u, aid, rid))
  {
    var s' := IssuePair(s, cfg, u, aid, rid);
    forall id | Live(s'.refresh, id, s'.now)
      ensures var w := s'.refresh[id].value;
              w in s'.index && id in s'.index[w].value && s'.refresh[id].expires <= s'.index[w].expires
    {
      if id != rid {
        assert Live(s.refresh, id, s.now);
      }
    }
  }

  lemma {:induction false} IssuePairKeepsBounds(s: State, cfg: Config, u: User, aid: Id, rid: Id)
    requires ConfigOk(cfg) && Bounded(s, cfg)
    ensures Bounded(IssuePair(s, cfg, u, aid, rid), cfg)
  {
    SecMonotone(s.now + cfg.access, s.now + cfg.access);
    SecMonotone(0, s.now);
  }

  lemma {:induction false} IssuePairKeepsTrack(s: State, cfg: Config, u: User, aid: Id, rid: Id)
    requires Tracked(s) && Fresh(s, aid, rid)
    ensures Tracked(IssuePair(s, cfg, u, aid, rid))
  {
  }

  lemma {:induction false} IssuePairKeepsInv(s: State, cfg: Config, u: User, aid: Id, rid: Id)
    requires ConfigOk(cfg) && Inv(s, cfg) && Fresh(s, aid, rid)
    ensures Inv(IssuePair(s, cfg, u, aid, rid), cfg)
  {
    IssuePairKeepsIndex(s, cfg, u, aid, rid);
    IssuePairKeepsBounds(s, cfg, u, aid, rid);
    IssuePairKeepsTrack(s, cfg, u, aid, rid);
  }

  lemma {:induction false} ConsumeKeepsInv(s: State, cfg: Config, c: Claims)
    requires Inv(s, cfg)
    ensures Inv(Consume(s, c), cfg)
  {
    var s' := Consume(s, c);
    assert forall id :: Live(s'.refresh, id, s'.now) ==> Live(s.refresh, id, s.now);
  }

  /** A revocation leaves no live refresh identifier of the user, because the index missed none. */
  lemma {:induction false} RevokeKeepsIndex(s: State, cfg: Config, u: User)
    requires Inv(s, cfg)
    ensures Indexed(RevokeAll(s, u))
    ensures forall id :: Live(RevokeAll(s, u).refresh, id, s.now) ==> RevokeAll(s, u).refresh[id].value != u
  {
    var s' := RevokeAll(s, u);
    forall id | Live(s'.refresh, id, s'.now)
      ensures var w := s'.refresh[id].value;
              w != u && w in s'.index && id in s'.index[w].value && s'.refresh[id].expires <= s'.index[w].expires
    {
      assert Live(s.refresh, id, s.now);
    }
  }

  lemma {:induction false} RevokeKeepsInv(s: State, cfg: Config, u: User)
    requires Inv(s, cfg)
    ensures Inv(RevokeAll(s, u), cfg)
  {
    RevokeKeepsIndex(s, cfg, u);
    assert Bounded(RevokeAll(s, u), cfg);
    assert Tracked(RevokeAll(s, u));
  }

  lemma {:induction false} RefreshKeepsInv(s: State, cfg: Config, c: Claims, allowed: bool, aid: Id, rid: Id)
    requires ConfigOk(cfg) && Inv(s, cfg) && Fresh(s, aid, rid)
    ensures Inv(Refresh(s, cfg, c, allowed, aid, rid), cfg)
  {
    ConsumeKeepsInv(s, cfg, c);
    IssuePairKeepsInv(Consume(s, c), cfg, c.user, aid, rid);
  }

  lemma {:induction false} BarKeepsInv(s: State, cfg: Config, c: Claims)
    requires Inv(s, cfg) && c in s.issued
    ensures Inv(s.(blacklist := s.blacklist[c.id := Entry(true, c.exp * SECOND)]), cfg)
  {
    var barred := s.(blacklist := s.blacklist[c.id := Entry(true, c.exp * SECOND)]);
    SameIndex(s, barred);
    assert Bounded(barred, cfg);
    assert Tracked(barred);
  }

  lemma {:induction false} LogoutKeepsInv(s: State, cfg: Config, c: Claims)
    requires Inv(s, cfg)
    ensures Inv(Logout(s, c), cfg)
  {
    if Authorized(s, c, false) {
      BarKeepsInv(s, cfg, c);
      RevokeKeepsInv(s.(blacklist := s.blacklist[c.id := Entry(true, c.exp * SECOND)]), cfg, c.user);
    }
  }

  lemma {:induction false} IssueStepKeepsInv(s: State, cfg: Config, a: Action)
    requires ConfigOk(cfg) && Inv(s, cfg) && Enabled(s, a) && (a.DoLogin? || a.DoRestrictedLogin? || a.DoRefresh?)
    ensures Inv(Apply(s, cfg, a), cfg)
  {
    match a {
      case DoLogin(u, aid, rid) => IssuePairKeepsInv(s, cfg, u, aid, rid);
      case DoRestrictedLogin(u, aid) => IssueRestrictedKeepsInv(s, cfg, u, aid);
      case DoRefresh(c, allowed, aid, rid) => RefreshKeepsInv(s, cfg, c, allowed, aid, rid);
    }
  }

  lemma {:induction false} StepKeepsInv(s: State, cfg: Config, a: Action)
    requires ConfigOk(cfg) && Inv(s, cfg) && Enabled(s, a)
    ensures Inv(Apply(s, cfg, a), cfg)
  {
    if a.Advance? {
      AdvanceStepKeepsInv(s, cfg, a);
    } else if a.DoRevoke? {
      RevokeStepKeepsInv(s, cfg, a);
    } else if a.DoLogout? {
      LogoutStepKeepsInv(s, cfg, a);
    } else {
      IssueStepKeepsInv(s, cfg, a);
    }
  }

  lemma {:induction false} AdvanceStepKeepsInv(s: State, cfg: Config, a: Action)
    requires Inv(s, cfg) && a.Advance?
    ensures Inv(Apply(s, cfg, a), cfg)
  {
    AdvanceKeepsInv(s, cfg, a.ms);
  }

  lemma {:induction false} RevokeStepKeepsInv(s: State, cfg: Config, a: Action)
    requires Inv(s, cfg) && a.DoRevoke?
    ensures Inv(Apply(s, cfg, a), cfg)
  {
    RevokeKeepsInv(s, cfg, a.user);
  }

  lemma {:induction false} LogoutStepKeepsInv(s: State, cfg: Config, a: Action)
    requires Inv(s, cfg) && a.DoLogout?
    ensures Inv(Apply(s, cfg, a), cfg)
  {
    LogoutKeepsInv(s, cfg, a.c);
  }

  lemma {:induction false} RunKeepsInv(s: State, cfg: Config, acts: seq<Action>)
    requires ConfigOk(cfg) && Inv(s, cfg)
    ensures Run(s, cfg, acts).Some? ==> Inv(Run(s, cfg, acts).value, cfg)
    decreases |acts|
  {
    if acts != [] && Enabled(s, acts[0]) {
      StepKeepsInv(s, cfg, acts[0]);
      RunKeepsInv(Apply(s, cfg, acts[0]), cfg, acts[1..]);
    }
  }

  // ------------------------------------------------------------ facts that last

  /** The identifier has been drawn and is not live: it can never be redeemed again. */
  ghost predicate Spent(s: State, id: Id) {
    id in s.used && !Live(s.refresh, id, s.now)
  }

  /** A revocation mark of at least `second` outlasts the token. */
  ghost predicate Marked(s: State, c: Claims, second: int) {
    && c.user in s.revoked
    && second <= s.revoked[c.user].value
    && c.exp * SECOND <= s.revoked[c.user].expires
  }

  /** The token is barred until it expires. */
  ghost predicate Barred(s: State, c: Claims) {
    c in s.issued && c.id in s.blacklist && s.blacklist[c.id].expires == c.exp * SECOND
  }

  lemma {:induction false} StepKeepsSpent(s: State, cfg: Config, a: Action, id: Id)
    requires Enabled(s, a) && Spent(s, id)
    ensures Spent(Apply(s, cfg, a), id)
  {
  }

  lemma {:induction false} StepKeepsMark(s: State, cfg: Config, a: Action, c: Claims, second: int)
    requires Inv(s, cfg) && Marked(s, c, second)
    ensures Marked(Apply(s, cfg, a), c, second)
  {
  }

  lemma {:induction false} StepKeepsBar(s: State, cfg: Config, a: Action, c: Claims)
    requires Inv(s, cfg) && Barred(s, c)
    ensures Barred(Apply(s, cfg, a), c)
  {
    if a.DoLogout? && a.c.id == c.id && a.c in s.issued {
      assert a.c == c;
    }
  }

  lemma {:induction false} RunKeepsFacts(s: State, cfg: Config, acts: seq<Action>, id: Id, c: Claims, second: int)
    requires ConfigOk(cfg) && Inv(s, cfg) && Run(s, cfg, acts).Some?
    ensures Spent(s, id) ==> Spent(Run(s, cfg, acts).value, id)
    ensures Marked(s, c, second) ==> Marked(Run(s, cfg, acts).value, c, second)
    ensures Barred(s, c) ==> Barred(Run(s, cfg, acts).value, c)
    decreases |acts|
  {
    if acts != [] {
      StepKeepsInv(s, cfg, acts[0]);
      if Spent(s, id) {
        StepKeepsSpent(s, cfg, acts[0], id);
      }
      if Marked(s, c, second) {
        StepKeepsMark(s, cfg, acts[0], c, second);
      }
      if Barred(s, c) {
        StepKeepsBar(s, cfg, acts[0], c);
      }
      RunKeepsFacts(Apply(s, cfg, acts[0]), cfg, acts[1..], id, c, second);
    }
  }

  // ------------------------------------------------------------------- theorems

  ghost predicate Reachable(s: State, cfg: Config) {
    exists start, acts :: 0 <= start && Run(Init(start), cfg, acts) == Some(s)
  }

  lemma {:induction false} ReachableInv(s: State, cfg: Config)
    requires ConfigOk(cfg) && Reachable(s, cfg)
    ensures Inv(s, cfg)
  {
    var start, acts :| 0 <= start && Run(Init(start), cfg, acts) == Some(s);
    RunKeepsInv(Init(start), cfg, acts);
  }

  /** In every reachable state a live refresh identifier is in its user's live index. */
  lemma {:induction false} LiveIdsAreIndexed(s: State, cfg: Config, id: Id)
    requires ConfigOk(cfg) && Reachable(s, cfg) && Live(s.refresh, id, s.now)
    ensures Live(s.index, s.refresh[id].value, s.now) && id in s.index[s.refresh[id].value].value
  {
    ReachableInv(s, cfg);
  }

  /** Single use: once redeemed, whatever the outcome, no token with that identifier is redeemable in any later state. */
  lemma {:induction false} RedeemedAtMostOnce(s: State, cfg: Config, c: Claims, allowed: bool, aid: Id, rid: Id, acts: seq<Action>, d: Claims)
    requires ConfigOk(cfg) && Reachable(s, cfg) && Redeemable(s, c) && Fresh(s, aid, rid) && d.id == c.id
    requires Run(Refresh(s, cfg, c, allowed, aid, rid), cfg, acts).Some?
    ensures !Redeemable(Run(Refresh(s, cfg, c, allowed, aid, rid), cfg, acts).value, d)
  {
    ReachableInv(s, cfg);
    var s' := Refresh(s, cfg, c, allowed, aid, rid);
    StepKeepsInv(s, cfg, DoRefresh(c, allowed, aid, rid));
    assert Spent(s', c.id);
    RunKeepsFacts(s', cfg, acts, c.id, c, 0);
  }

  /**
   After a revocation no refresh token issued to the user before it is ever redeemable, and no
   access token issued in an earlier second is ever accepted.
   */
  lemma {:induction false} RevocationIsFinal(s: State, cfg: Config, u: User, acts: seq<Action>, c: Claims, changesPassword: bool)
    requires ConfigOk(cfg) && Reachable(s, cfg) && c in s.issued && c.user == u
    requires Run(RevokeAll(s, u), cfg, acts).Some?
    ensures !Redeemable(Run(RevokeAll(s, u), cfg, acts).value, c)
    ensures c.iat < Sec(s.now) ==> !Authorized(Run(RevokeAll(s, u), cfg, acts).value, c, changesPassword)
  {
    ReachableInv(s, cfg);
    RevokeKeepsInv(s, cfg, u);
    RevokeKeepsIndex(s, cfg, u);
    var s' := RevokeAll(s, u);
    assert Spent(s', c.id);
    RunKeepsFacts(s', cfg, acts, c.id, c, Sec(s.now));
    if c.use == AccessUse {
      assert Marked(s', c, Sec(s.now));
    }
  }

  /** After logout the very token used is never accepted again, even within the same second. */
  lemma {:induction false} LogoutIsFinal(s: State, cfg: Config, c: Claims, acts: seq<Action>, changesPassword: bool)
    requires ConfigOk(cfg) && Reachable(s, cfg) && Authorized(s, c, false) && Run(Logout(s, c), cfg, acts).Some?
    ensures !Authorized(Run(Logout(s, c), cfg, acts).value, c, changesPassword)
  {
    ReachableInv(s, cfg);
    StepKeepsInv(s, cfg, DoLogout(c));
    assert Barred(Logout(s, c), c);
    RunKeepsFacts(Logout(s, c), cfg, acts, c.id, c, 0);
  }

  /**
   The restriction to an earlier second is exact: a revocation bars precisely those accepted access
   tokens of the user that were issued in an earlier second, and nobody else's.
   */
  lemma {:induction false} RevocationIsExact(s: State, cfg: Config, u: User, c: Claims, changesPassword: bool)
    requires ConfigOk(cfg) && Reachable(s, cfg)
    ensures Authorized(RevokeAll(s, u), c, changesPassword) <==>
            Authorized(s, c, changesPassword) && (c.user == u ==> Sec(s.now) <= c.iat)
  {
    ReachableInv(s, cfg);
  }

  /** So a token issued at any moment of the second of the revocation survives it. */
  lemma {:induction false} SameSecondTokenSurvives(s: State, cfg: Config, c: Claims, changesPassword: bool)
    requires ConfigOk(cfg) && Reachable(s, cfg) && Authorized(s, c, changesPassword) && c.iat == Sec(s.now)
    ensures Authorized(RevokeAll(s, c.user), c, changesPassword)
  {
    RevocationIsExact(s, cfg, c.user, c, changesPassword);
  }

  // ------------------------------------------------------------ the handlers' code

  /**
   The four families of keys with the commands the handlers issue. `signed` parameters carry the
   result of the signature check, `now` the clock.
   */
  class KeyStore {
    var refresh: map<Id, Entry<User>>
    var index: map<User, Entry<set<Id>>>
    var revoked: map<User, Entry<int>>
    var blacklist: map<Id, Entry<bool>>
    ghost var used: set<Id>
    ghost var issued: set<Claims>

    constructor ()
      ensures View(0) == Init(0)
    {
      refresh, index, revoked, blacklist := map[], map[], map[], map[];
      used, issued := {}, {};
    }

    ghost function View(now: int): State
      reads this
    {
      State(now, refresh, index, revoked, blacklist, used, issued)
    }

    /** Signs a pair and stores the refresh identifier with its index entry. */
    method IssueTokens(cfg: Config, u: User, aid: Id, rid: Id, now: int) returns (a: Claims, r: Claims)
      modifies this
      ensures View(now) == IssuePair(old(View(now)), cfg, u, aid, rid)
      ensures a == Claims(AccessUse, u, aid, now / 1000, (now + cfg.access) / 1000, false)
      ensures r == Claims(RefreshUse, u, rid, now / 1000, (now + cfg.refresh) / 1000, false)
      ensures issued == old(issued) + {a, r} && refresh == old(refresh)[rid := Entry(u, now + cfg.refresh)]
    {
      a := Claims(AccessUse, u, aid, Sec(now), Sec(now + cfg.access), false);
      r := Claims(RefreshUse, u, rid, Sec(now), Sec(now + cfg.refresh), false);
      refresh := refresh[rid := Entry(u, now + cfg.refresh)];
      var members := if Live(index, u, now) then index[u].value else {};
      index := index[u := Entry(members + {rid}, now + cfg.refresh)];
      used := used + {aid, rid};
      issued := issued + {a, r};
    }

    /** Consumes the presented token and, if the user may continue, issues the next pair. */
    method RefreshTokens(cfg: Config, c: Claims, signed: bool, allowed: bool, aid: Id, rid: Id, now: int) returns (ok: bool)
      requires signed <==> c in issued
      modifies this
      ensures View(now) == Refresh(old(View(now)), cfg, c, allowed, aid, rid)
      ensures ok <==> Redeemable(old(View(now)), c) && old(refresh[c.id].value) == c.user && allowed
    {
      if !signed || now >= c.exp * SECOND || !Live(refresh, c.id, now) || c.use != RefreshUse {
        return false;
      }
      var uid := refresh[c.id].value;
      refresh := refresh - {c.id};
      if uid != c.user || !allowed {
        return false;
      }
      var _, _ := IssueTokens(cfg, c.user, aid, rid, now);
      return true;
    }

    /** Deletes every indexed refresh identifier one by one, then the index, then sets the mark. */
    method RevokeAllSessions(u: User, now: int)
      modifies this
      ensures View(now) == RevokeAll(old(View(now)), u)
      ensures revoked == old(revoked)[u := Entry(now / 1000, now + 30 * 86_400_000)] && index == old(index) - {u}
    {
      var members := if Live(index, u, now) then index[u].value else {};
      var todo := members;
      while todo != {}
        invariant todo <= members
        invariant refresh == old(refresh) - (members - todo)
        invariant View(now) == old(View(now)).(refresh := refresh)
      {
        var id :| id in todo;
        refresh := refresh - {id};
        todo := todo - {id};
      }
      assert members - todo == members;
      index := index - {u};
      revoked := revoked[u := Entry(Sec(now), now + REVOCATION_TTL)];
      assert old(View(now)).index - {u} == index;
    }

    /** The middleware in its own order of checks. */
    method Authorize(c: Claims, signed: bool, changesPassword: bool, now: int) returns (ok: bool)
      requires signed <==> c in issued
      ensures ok <==> Authorized(View(now), c, changesPassword)
      ensures ok ==> c in issued && now < c.exp * 1000 && c.use == AccessUse && (c.restricted ==> changesPassword)
      ensures c in issued && now < c.exp * 1000 && c.use == AccessUse && c.id !in blacklist && c.user !in revoked ==>
                (ok <==> (c.restricted ==> changesPassword))
    {
      if !signed || now >= c.exp * SECOND {
        return false;
      }
      if c.use != AccessUse || Live(blacklist, c.id, now) {
        return false;
      }
      if Live(revoked, c.user, now) {
        var mark := revoked[c.user].value;
        if mark > 0 && c.iat < mark {
          return false;
        }
      }
      return !c.restricted || changesPassword;
    }

    method LogoutUser(c: Claims, signed: bool, now: int)
      requires signed <==> c in issued
      modifies this
      ensures View(now) == Logout(old(View(now)), c)
    {
      var ok := Authorize(c, signed, false, now);
      if ok {
        if now < c.exp * SECOND {
          blacklist := blacklist[c.id := Entry(true, c.exp * SECOND)];
        }
        RevokeAllSessions(c.user, now);
      }
    }
  }
}
