/**
 When a token is good, told from the actions of a run alone: from its issue to its expiry, unless
 one of the actions in between ends it. The key store with its expiring keys is compared with that.
 */
module SessionLifetimes {
  import opened Prelude
  import opened Sessions

  // --------------------------------------------------------- what ends a token

  /** The action revokes the user: directly, or through a logout with an accepted token of the user. */
  predicate Revokes(s: State, a: Action, u: User) {
    || a == DoRevoke(u)
    || (a.DoLogout? && a.c.user == u && Authorized(s, a.c, false))
  }

  /** The action ends an access token: its user is revoked in a later second, or the very token is logged out. */
  predicate EndsAccess(s: State, a: Action, c: Claims) {
    Revokes(s, a, c.user) && (c.iat < s.now / 1000 || a == DoLogout(c))
  }

  /** The action ends a refresh token: it is presented, or its user is revoked. */
  predicate EndsRefresh(s: State, a: Action, r: Claims) {
    Revokes(s, a, r.user) || (a.DoRefresh? && a.c == r)
  }

  /** Some action of the run ends the access token. */
  predicate AccessEnded(s: State, cfg: Config, acts: seq<Action>, c: Claims)
    decreases |acts|
  {
    acts != [] && (EndsAccess(s, acts[0], c) || AccessEnded(Apply(s, cfg, acts[0]), cfg, acts[1..], c))
  }

  predicate RefreshEnded(s: State, cfg: Config, acts: seq<Action>, r: Claims)
    decreases |acts|
  {
    acts != [] && (EndsRefresh(s, acts[0], r) || RefreshEnded(Apply(s, cfg, acts[0]), cfg, acts[1..], r))
  }

  // ----------------------------------------------------------------- invariants

  /** A bar, a mark and a stored refresh identifier last at least as long as the token they are about. */
  ghost predicate Lasting(s: State) {
    && (forall c :: c in s.issued && c.id in s.blacklist ==> s.blacklist[c.id].expires == c.exp * SECOND)
    && (forall c :: c in s.issued && c.use == AccessUse && c.user in s.revoked && c.iat < s.revoked[c.user].value ==>
          c.exp * SECOND <= s.revoked[c.user].expires)
    && (forall c :: c in s.issued && c.id in s.refresh ==> c.exp * SECOND <= s.refresh[c.id].expires)
  }

  /** The index of a user names identifiers of that user's tokens only. */
  ghost predicate Owned(s: State) {
    && (forall u, id :: u in s.index && id in s.index[u].value ==> id in s.used)
    && (forall u, c :: u in s.index && c in s.issued && c.id in s.index[u].value ==> c.user == u)
  }

  ghost predicate Strong(s: State, cfg: Config) {
    Inv(s, cfg) && Lasting(s) && Owned(s)
  }

  lemma {:induction false} IssuePairKeepsLasting(s: State, cfg: Config, u: User, aid: Id, rid: Id)
    requires Lasting(s) && Tracked(s) && Bounded(s, cfg) && Fresh(s, aid, rid)
    ensures Lasting(IssuePair(s, cfg, u, aid, rid))
  {
    SecMonotone(s.now + cfg.refresh, s.now + cfg.refresh);
  }

  lemma {:induction false} IssuePairKeepsOwned(s: State, cfg: Config, u: User, aid: Id, rid: Id)
    requires Owned(s) && Tracked(s) && Fresh(s, aid, rid)
    ensures Owned(IssuePair(s, cfg, u, aid, rid))
  {
  }

  lemma {:induction false} RefreshKeepsLasting(s: State, cfg: Config, c: Claims, allowed: bool, aid: Id, rid: Id)
    requires Inv(s, cfg) && Lasting(s) && Fresh(s, aid, rid)
    ensures Lasting(Refresh(s, cfg, c, allowed, aid, rid))
  {
    ConsumeKeepsInv(s, cfg, c);
    assert Lasting(Consume(s, c));
    IssuePairKeepsLasting(Consume(s, c), cfg, c.user, aid, rid);
  }

  lemma {:induction false} SpentKeepsTracked(s: State, c: Claims)
    requires Tracked(s) && Owned(s)
    ensures Tracked(Consume(s, c)) && Owned(Consume(s, c))
  {
  }

  lemma {:induction false} RefreshKeepsOwned(s: State, cfg: Config, c: Claims, allowed: bool, aid: Id, rid: Id)
    requires Tracked(s) && Owned(s) && Fresh(s, aid, rid)
    ensures Owned(Refresh(s, cfg, c, allowed, aid, rid))
  {
    SpentKeepsTracked(s, c);
    IssuePairKeepsOwned(Consume(s, c), cfg, c.user, aid, rid);
  }

  lemma {:induction false} RestrictedKeepsLasting(s: State, cfg: Config, u: User, aid: Id)
    requires Lasting(s) && Tracked(s) && Bounded(s, cfg) && aid !in s.used
    ensures Lasting(IssueRestricted(s, u, aid))
  {
  }

  lemma {:induction false} RestrictedKeepsOwned(s: State, u: User, aid: Id)
    requires Owned(s) && Tracked(s) && aid !in s.used
    ensures Owned(IssueRestricted(s, u, aid))
  {
  }

  lemma {:induction false} RevokeKeepsLasting(s: State, cfg: Config, u: User)
    requires Lasting(s) && Bounded(s, cfg)
    ensures Lasting(RevokeAll(s, u))
  {
  }

  function Bar(s: State, c: Claims): State {
    s.(blacklist := s.blacklist[c.id := Entry(true, c.exp * SECOND)])
  }

  lemma {:induction false} BarKeepsLasting(s: State, c: Claims)
    requires Lasting(s) && Tracked(s) && c in s.issued
    ensures Lasting(Bar(s, c))
  {
  }

  lemma {:induction false} LogoutKeepsLasting(s: State, cfg: Config, c: Claims)
    requires Lasting(s) && Tracked(s) && Bounded(s, cfg)
    ensures Lasting(Logout(s, c))
  {
    if Authorized(s, c, false) {
      BarKeepsLasting(s, c);
      assert Bounded(Bar(s, c), cfg);
      RevokeKeepsLasting(Bar(s, c), cfg, c.user);
    }
  }

  lemma {:induction false} StepKeepsLasting(s: State, cfg: Config, a: Action)
    requires Inv(s, cfg) && Lasting(s) && Enabled(s, a)
    ensures Lasting(Apply(s, cfg, a))
  {
    match a {
      case Advance(_) => assert Lasting(Apply(s, cfg, a));
      case DoLogin(u, aid, rid) => IssuePairKeepsLasting(s, cfg, u, aid, rid);
      case DoRestrictedLogin(u, aid) => RestrictedKeepsLasting(s, cfg, u, aid);
      case DoRefresh(c, allowed, aid, rid) => RefreshKeepsLasting(s, cfg, c, allowed, aid, rid);
      case DoRevoke(u) => RevokeKeepsLasting(s, cfg, u);
      case DoLogout(c) => LogoutKeepsLasting(s, cfg, c);
    }
  }

  lemma {:induction false} StepKeepsOwned(s: State, cfg: Config, a: Action)
    requires Inv(s, cfg) && Owned(s) && Enabled(s, a)
    ensures Owned(Apply(s, cfg, a))
  {
    match a {
      case DoLogin(u, aid, rid) => IssuePairKeepsOwned(s, cfg, u, aid, rid);
      case DoRestrictedLogin(u, aid) => RestrictedKeepsOwned(s, u, aid);
      case DoRefresh(c, allowed, aid, rid) => RefreshKeepsOwned(s, cfg, c, allowed, aid, rid);
      case _ => assert Owned(Apply(s, cfg, a));
    }
  }

  lemma {:induction false} StepKeepsStrong(s: State, cfg: Config, a: Action)
    requires ConfigOk(cfg) && Strong(s, cfg) && Enabled(s, a)
    ensures Strong(Apply(s, cfg, a), cfg)
  {
    StepKeepsInv(s, cfg, a);
    StepKeepsLasting(s, cfg, a);
    StepKeepsOwned(s, cfg, a);
  }

  lemma {:induction false} RunKeepsStrong(s: State, cfg: Config, acts: seq<Action>)
    requires ConfigOk(cfg) && Strong(s, cfg)
    ensures Run(s, cfg, acts).Some? ==> Strong(Run(s, cfg, acts).value, cfg)
    decreases |acts|
  {
    if acts != [] && Enabled(s, acts[0]) {
      StepKeepsStrong(s, cfg, acts[0]);
      RunKeepsStrong(Apply(s, cfg, acts[0]), cfg, acts[1..]);
    }
  }

  lemma {:induction false} ReachableStrong(s: State, cfg: Config)
    requires ConfigOk(cfg) && Reachable(s, cfg)
    ensures Strong(s, cfg)
  {
    var start, acts :| 0 <= start && Run(Init(start), cfg, acts) == Some(s);
    RunKeepsStrong(Init(start), cfg, acts);
  }

  lemma {:induction false} RunSnoc(s: State, cfg: Config, acts: seq<Action>, a: Action)
    requires Run(s, cfg, acts).Some? && Enabled(Run(s, cfg, acts).value, a)
    ensures Run(s, cfg, acts + [a]) == Some(Apply(Run(s, cfg, acts).value, cfg, a))
    decreases |acts|
  {
    if acts == [] {
      assert acts + [a] == [a] && [a][1..] == [];
    } else {
      RunSnoc(Apply(s, cfg, acts[0]), cfg, acts[1..], a);
      assert (acts + [a])[1..] == acts[1..] + [a];
    }
  }

  lemma {:induction false} ReachableStep(s: State, cfg: Config, a: Action)
    requires Reachable(s, cfg) && Enabled(s, a)
    ensures Reachable(Apply(s, cfg, a), cfg)
  {
    var start, acts :| 0 <= start && Run(Init(start), cfg, acts) == Some(s);
    RunSnoc(Init(start), cfg, acts, a);
  }

  // -------------------------------------------------------------- access tokens

  /** The store holds a bar or a later mark against the token, expired or not. */
  predicate Against(s: State, c: Claims) {
    c.id in s.blacklist || (c.user in s.revoked && c.iat < s.revoked[c.user].value)
  }

  lemma {:induction false} AcceptedUnlessAgainst(s: State, cfg: Config, c: Claims, changesPassword: bool)
    requires Strong(s, cfg) && c in s.issued && c.use == AccessUse
    ensures Authorized(s, c, changesPassword) <==>
            s.now < c.exp * SECOND && !Against(s, c) && (c.restricted ==> changesPassword)
  {
  }

  lemma {:induction false} OneToken(s: State, c: Claims, d: Claims)
    requires Tracked(s) && c in s.issued && d in s.issued
    ensures c.id == d.id ==> c == d
  {
  }

  lemma {:induction false} RevokeAgainst(s: State, cfg: Config, u: User, c: Claims)
    requires Bounded(s, cfg)
    ensures Against(RevokeAll(s, u), c) <==> Against(s, c) || (c.user == u && c.iat < s.now / 1000)
  {
  }

  lemma {:induction false} LogoutAgainst(s: State, cfg: Config, d: Claims, c: Claims)
    requires Bounded(s, cfg) && Tracked(s) && c in s.issued
    ensures Against(Logout(s, d), c) <==> Against(s, c) || EndsAccess(s, DoLogout(d), c)
  {
    if Authorized(s, d, false) {
      OneToken(s, c, d);
      assert Bounded(Bar(s, d), cfg);
      RevokeAgainst(Bar(s, d), cfg, d.user, c);
    }
  }

  /** What one action does to the standing of a token. */
  lemma {:induction false} StepAgainst(s: State, cfg: Config, a: Action, c: Claims)
    requires ConfigOk(cfg) && Strong(s, cfg) && Enabled(s, a) && c in s.issued && c.use == AccessUse
    ensures c in Apply(s, cfg, a).issued && s.now <= Apply(s, cfg, a).now
    ensures Against(Apply(s, cfg, a), c) <==> Against(s, c) || EndsAccess(s, a, c)
  {
    match a {
      case DoRevoke(u) => RevokeAgainst(s, cfg, u, c);
      case DoLogout(d) => LogoutAgainst(s, cfg, d, c);
      case _ =>
    }
  }

  lemma {:induction false} RunAgainst(s: State, cfg: Config, acts: seq<Action>, c: Claims)
    requires ConfigOk(cfg) && Strong(s, cfg) && Run(s, cfg, acts).Some? && c in s.issued && c.use == AccessUse
    ensures
      var s' := Run(s, cfg, acts).value;
      c in s'.issued && s.now <= s'.now && (Against(s', c) <==> Against(s, c) || AccessEnded(s, cfg, acts, c))
    decreases |acts|
  {
    if acts != [] {
      StepAgainst(s, cfg, acts[0], c);
      StepKeepsStrong(s, cfg, acts[0]);
      RunAgainst(Apply(s, cfg, acts[0]), cfg, acts[1..], c);
    }
  }

  /** A token nobody has acted against is good from now to its expiry, unless an action of the run ends it. */
  lemma {:induction false} GoodUntilEnded(s: State, cfg: Config, c: Claims, acts: seq<Action>, s': State, changesPassword: bool)
    requires ConfigOk(cfg) && Reachable(s, cfg) && Run(s, cfg, acts) == Some(s')
    requires c in s.issued && c.use == AccessUse && !Against(s, c)
    ensures Authorized(s', c, changesPassword) <==>
            s'.now < c.exp * 1000 && !AccessEnded(s, cfg, acts, c) && (c.restricted ==> changesPassword)
  {
    ReachableStrong(s, cfg);
    RunAgainst(s, cfg, acts, c);
    RunKeepsStrong(s, cfg, acts);
    AcceptedUnlessAgainst(s', cfg, c, changesPassword);
  }

  lemma {:induction false} NewIsClean(s: State, s': State, cfg: Config, c: Claims)
    requires ConfigOk(cfg) && Reachable(s, cfg) && c.id !in s.used && c.iat == Sec(s.now)
    requires s'.blacklist == s.blacklist && s'.revoked == s.revoked
    ensures !Against(s', c)
  {
    ReachableInv(s, cfg);
  }

  /** The action gives the user a new pair: a login, or a refresh that succeeds. */
  predicate Grants(s: State, a: Action, u: User) {
    || (a.DoLogin? && a.user == u)
    || (a.DoRefresh? && a.c.user == u && a.allowed && Redeemable(s, a.c))
  }

  /** The token with the first identifier of a pair, and the one with the second. */
  function GrantedAccess(s: State, cfg: Config, u: User, aid: Id): Claims {
    Claims(AccessUse, u, aid, s.now / 1000, (s.now + cfg.access) / 1000, false)
  }

  function GrantedRefresh(s: State, cfg: Config, u: User, rid: Id): Claims {
    Claims(RefreshUse, u, rid, s.now / 1000, (s.now + cfg.refresh) / 1000, false)
  }

  lemma {:induction false} StoredUser(s: State, cfg: Config, r: Claims)
    requires ConfigOk(cfg) && Reachable(s, cfg) && Redeemable(s, r)
    ensures s.refresh[r.id].value == r.user
  {
    ReachableInv(s, cfg);
  }

  lemma {:induction false} GrantIssues(s: State, cfg: Config, a: Action, u: User)
    requires ConfigOk(cfg) && Reachable(s, cfg) && Enabled(s, a) && Grants(s, a, u)
    ensures
      var s' := Apply(s, cfg, a);
      && s'.issued == s.issued + {GrantedAccess(s, cfg, u, a.aid), GrantedRefresh(s, cfg, u, a.rid)}
      && s'.blacklist == s.blacklist && s'.revoked == s.revoked && s'.now == s.now
      && a.rid in s'.refresh && s'.refresh[a.rid] == Entry(u, s.now + cfg.refresh)
      && a.aid !in s.used && a.rid !in s.used && a.aid != a.rid
  {
    if a.DoRefresh? {
      StoredUser(s, cfg, a.c);
    }
  }

  /**
   The access token of a login or a successful refresh is accepted, at every endpoint, exactly until
   it expires, is logged out, or its user is revoked in a later second.
   */
  lemma {:induction false} AccessLasts(s: State, cfg: Config, a: Action, u: User, acts: seq<Action>, s': State, changesPassword: bool)
    requires ConfigOk(cfg) && Reachable(s, cfg) && Enabled(s, a) && Grants(s, a, u)
    requires Run(Apply(s, cfg, a), cfg, acts) == Some(s')
    ensures
      var c := Claims(AccessUse, u, a.aid, s.now / 1000, (s.now + cfg.access) / 1000, false);
      && c in Apply(s, cfg, a).issued
      && (Authorized(s', c, changesPassword) <==> s'.now < c.exp * 1000 && !AccessEnded(Apply(s, cfg, a), cfg, acts, c))
  {
    ReachableStep(s, cfg, a);
    GrantIssues(s, cfg, a, u);
    NewIsClean(s, Apply(s, cfg, a), cfg, GrantedAccess(s, cfg, u, a.aid));
    GoodUntilEnded(Apply(s, cfg, a), cfg, GrantedAccess(s, cfg, u, a.aid), acts, s', changesPassword);
  }

  /**
   The token of a login that demands a new password is accepted by the password change, exactly as
   long, and by no other endpoint ever.
   */
  lemma {:induction false} RestrictedLasts(s: State, cfg: Config, u: User, aid: Id, acts: seq<Action>, s': State, changesPassword: bool)
    requires ConfigOk(cfg) && Reachable(s, cfg) && aid !in s.used
    requires Run(Apply(s, cfg, DoRestrictedLogin(u, aid)), cfg, acts) == Some(s')
    ensures
      var s1 := Apply(s, cfg, DoRestrictedLogin(u, aid));
      var c := Claims(AccessUse, u, aid, s.now / 1000, (s.now + 900_000) / 1000, true);
      && c in s1.issued
      && (Authorized(s', c, changesPassword) <==>
          changesPassword && s'.now < c.exp * 1000 && !AccessEnded(s1, cfg, acts, c))
      && (forall d: Claims :: d.id == aid && Authorized(s', d, changesPassword) ==> changesPassword)
  {
    var a := DoRestrictedLogin(u, aid);
    var s1 := Apply(s, cfg, a);
    var c := RestrictedClaims(s, u, aid);
    ReachableStep(s, cfg, a);
    NewIsClean(s, s1, cfg, c);
    GoodUntilEnded(s1, cfg, c, acts, s', changesPassword);
    forall d: Claims | d.id == aid && Authorized(s', d, changesPassword) ensures changesPassword {
      SameIdSameToken(s1, cfg, acts, c, d);
    }
  }

  lemma {:induction false} IssuedGrows(s: State, cfg: Config, acts: seq<Action>, c: Claims)
    requires Run(s, cfg, acts).Some? && c in s.issued
    ensures c in Run(s, cfg, acts).value.issued
    decreases |acts|
  {
    if acts != [] {
      IssuedGrows(Apply(s, cfg, acts[0]), cfg, acts[1..], c);
    }
  }

  /** An identifier names one token for good. */
  lemma {:induction false} SameIdSameToken(s: State, cfg: Config, acts: seq<Action>, c: Claims, d: Claims)
    requires ConfigOk(cfg) && Reachable(s, cfg) && Run(s, cfg, acts).Some? && c in s.issued && d.id == c.id
    ensures d in Run(s, cfg, acts).value.issued ==> d == c
  {
    ReachableStrong(s, cfg);
    IssuedGrows(s, cfg, acts, c);
    RunKeepsStrong(s, cfg, acts);
    if d in Run(s, cfg, acts).value.issued {
      OneToken(Run(s, cfg, acts).value, c, d);
    }
  }

  // ------------------------------------------------------------- refresh tokens

  lemma {:induction false} RevokeSpares(s: State, cfg: Config, u: User, r: Claims)
    requires Strong(s, cfg) && Redeemable(s, r)
    ensures Redeemable(RevokeAll(s, u), r) <==> r.user != u
  {
    RevokeKeepsIndex(s, cfg, u);
    assert s.refresh[r.id].value == r.user;
  }

  lemma {:induction false} RefreshSpares(s: State, cfg: Config, a: Action, r: Claims)
    requires Tracked(s) && a.DoRefresh? && Enabled(s, a) && Redeemable(s, r)
    ensures Redeemable(Apply(s, cfg, a), r) <==> a.c != r
  {
    if a.c in s.issued {
      OneToken(s, a.c, r);
    }
  }

  /** What one action does to a refresh token that is good. */
  lemma {:induction false} StepRedeemable(s: State, cfg: Config, a: Action, r: Claims)
    requires ConfigOk(cfg) && Strong(s, cfg) && Enabled(s, a) && Redeemable(s, r)
    ensures r in Apply(s, cfg, a).issued && s.now <= Apply(s, cfg, a).now
    ensures Redeemable(Apply(s, cfg, a), r) <==> Apply(s, cfg, a).now < r.exp * 1000 && !EndsRefresh(s, a, r)
  {
    match a {
      case DoRevoke(u) => RevokeSpares(s, cfg, u, r);
      case DoLogout(d) =>
        RevokeSpares(s, cfg, d.user, r);
        assert Logout(s, d).refresh == if Authorized(s, d, false) then RevokeAll(s, d.user).refresh else s.refresh;
      case DoRefresh(_, _, _, _) => RefreshSpares(s, cfg, a, r);
      case _ =>
    }
  }

  lemma {:induction false} NeverAgain(s: State, cfg: Config, acts: seq<Action>, r: Claims)
    requires ConfigOk(cfg) && Strong(s, cfg) && Run(s, cfg, acts).Some? && r in s.issued && !Redeemable(s, r)
    ensures !Redeemable(Run(s, cfg, acts).value, r)
    decreases |acts|
  {
    if acts != [] {
      StepKeepsStrong(s, cfg, acts[0]);
      StaysSpent(s, cfg, acts[0], r);
      NeverAgain(Apply(s, cfg, acts[0]), cfg, acts[1..], r);
    }
  }

  lemma {:induction false} StaysSpent(s: State, cfg: Config, a: Action, r: Claims)
    requires Strong(s, cfg) && Enabled(s, a) && r in s.issued && !Redeemable(s, r)
    ensures r in Apply(s, cfg, a).issued && !Redeemable(Apply(s, cfg, a), r)
  {
    if !Live(s.refresh, r.id, s.now) {
      StepKeepsSpent(s, cfg, a, r.id);
    }
  }

  lemma {:induction false} TimePasses(s: State, cfg: Config, acts: seq<Action>)
    requires Run(s, cfg, acts).Some?
    ensures s.now <= Run(s, cfg, acts).value.now
    decreases |acts|
  {
    if acts != [] {
      TimePasses(Apply(s, cfg, acts[0]), cfg, acts[1..]);
    }
  }

  lemma {:induction false} RedeemableUntilEnded(s: State, cfg: Config, r: Claims, acts: seq<Action>, s': State)
    requires ConfigOk(cfg) && Strong(s, cfg) && Run(s, cfg, acts) == Some(s') && Redeemable(s, r)
    ensures Redeemable(s', r) <==> s'.now < r.exp * 1000 && !RefreshEnded(s, cfg, acts, r)
    decreases |acts|
  {
    if acts != [] {
      var s1 := Apply(s, cfg, acts[0]);
      StepKeepsStrong(s, cfg, acts[0]);
      StepRedeemable(s, cfg, acts[0], r);
      TimePasses(s1, cfg, acts[1..]);
      if Redeemable(s1, r) {
        RedeemableUntilEnded(s1, cfg, r, acts[1..], s');
      } else {
        NeverAgain(s1, cfg, acts[1..], r);
      }
    }
  }

  lemma {:induction false} RefreshGoodUntilEnded(s: State, cfg: Config, r: Claims, acts: seq<Action>, s': State)
    requires ConfigOk(cfg) && Reachable(s, cfg) && Run(s, cfg, acts) == Some(s') && r in s.issued
    requires Redeemable(s, r) <==> s.now < r.exp * 1000
    ensures Redeemable(s', r) <==> s'.now < r.exp * 1000 && !RefreshEnded(s, cfg, acts, r)
  {
    ReachableStrong(s, cfg);
    if Redeemable(s, r) {
      RedeemableUntilEnded(s, cfg, r, acts, s');
    } else {
      NeverAgain(s, cfg, acts, r);
      TimePasses(s, cfg, acts);
    }
  }

  /**
   The refresh token of a login or a successful refresh is redeemable exactly until it expires, is
   presented, or its user is revoked; and no token with its identifier is ever accepted as an access token.
   */
  lemma {:induction false} RefreshLasts(s: State, cfg: Config, a: Action, u: User, acts: seq<Action>, s': State, changesPassword: bool)
    requires ConfigOk(cfg) && Reachable(s, cfg) && Enabled(s, a) && Grants(s, a, u)
    requires Run(Apply(s, cfg, a), cfg, acts) == Some(s')
    ensures
      var r := Claims(RefreshUse, u, a.rid, s.now / 1000, (s.now + cfg.refresh) / 1000, false);
      && r in Apply(s, cfg, a).issued
      && (Redeemable(s', r) <==> s'.now < r.exp * 1000 && !RefreshEnded(Apply(s, cfg, a), cfg, acts, r))
      && (forall d: Claims :: d.id == a.rid ==> !Authorized(s', d, changesPassword))
  {
    ReachableStep(s, cfg, a);
    GrantIssues(s, cfg, a, u);
    var s1, r := Apply(s, cfg, a), GrantedRefresh(s, cfg, u, a.rid);
    forall d: Claims | d.id == a.rid ensures !Authorized(s', d, changesPassword) {
      SameIdSameToken(s1, cfg, acts, r, d);
    }
    TimePasses(s1, cfg, acts);
    RefreshGoodUntilEnded(s1, cfg, r, acts, s');
  }

  // ------------------------------------------------------- where tokens come from

  /** The action hands out a token of this user, use, identifier and restriction. */
  predicate Signs(a: Action, c: Claims) {
    match a
    case DoLogin(u, aid, rid) => c.user == u && !c.restricted && c.id == (if c.use == AccessUse then aid else rid)
    case DoRestrictedLogin(u, aid) => c.user == u && c.restricted && c.use == AccessUse && c.id == aid
    case DoRefresh(d, allowed, aid, rid) =>
      allowed && d.use == RefreshUse && c.user == d.user && !c.restricted && c.id == (if c.use == AccessUse then aid else rid)
    case _ => false
  }

  ghost predicate Sourced(s: State, past: seq<Action>) {
    forall c :: c in s.issued ==> exists a :: a in past && Signs(a, c)
  }

  lemma {:induction false} StepKeepsSourced(s: State, cfg: Config, past: seq<Action>, a: Action)
    requires Sourced(s, past)
    ensures Sourced(Apply(s, cfg, a), past + [a])
  {
    forall c | c in Apply(s, cfg, a).issued ensures exists b :: b in past + [a] && Signs(b, c) {
      if c in s.issued {
        var b :| b in past && Signs(b, c);
        assert b in past + [a];
      } else {
        assert a in past + [a] && Signs(a, c);
      }
    }
  }

  lemma {:induction false} RunKeepsSourced(s: State, cfg: Config, past: seq<Action>, acts: seq<Action>)
    requires Sourced(s, past)
    ensures Run(s, cfg, acts).Some? ==> Sourced(Run(s, cfg, acts).value, past + acts)
    decreases |acts|
  {
    if acts == [] {
      assert past + acts == past;
    } else if Enabled(s, acts[0]) {
      StepKeepsSourced(s, cfg, past, acts[0]);
      RunKeepsSourced(Apply(s, cfg, acts[0]), cfg, past + [acts[0]], acts[1..]);
      assert past + [acts[0]] + acts[1..] == past + acts;
    }
  }

  /** Only what a login or a refresh of the run handed out, for that user and that use, is ever accepted or redeemed. */
  lemma {:induction false} OnlyGrantedTokens(start: int, cfg: Config, acts: seq<Action>, s: State, c: Claims, changesPassword: bool)
    requires Run(Init(start), cfg, acts) == Some(s)
    ensures Authorized(s, c, changesPassword) ==> c.use == AccessUse && exists a :: a in acts && Signs(a, c)
    ensures Redeemable(s, c) ==> c.use == RefreshUse && exists a :: a in acts && Signs(a, c)
  {
    RunKeepsSourced(Init(start), cfg, [], acts);
    assert [] + acts == acts;
  }
}
