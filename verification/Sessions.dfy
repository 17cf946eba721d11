/**
 Refresh-token rotation and logout over many overlapping requests. A refresh runs as three atomic
 sections divided by its awaits: verify the token; look the user up; rotate. Logout has no await.
 */
module Sessions {
  import opened Results
  import opened TtlCache
  import opened Tokens

  datatype AuthError = InvalidOrExpired | NotARefreshToken | Malformed | UserNotFound | Refused(why: TokenError)

  /** What the first section of `refresh` makes of the presented token. */
  function Presented(v: Vault, t: Token, tDecode: real, tLookup: real): Result<Token, AuthError> {
    if Verdict(v, t, tDecode, tLookup).Err? then Err(InvalidOrExpired)
    else if t.kind != Refresh then Err(NotARefreshToken)
    else if t.user == "" then Err(Malformed)
    else Ok(t)
  }

  /** A token that logout comes to, and its clock readings while handling it. */
  datatype Visit = Visit(token: Token, decode: real, lookup: real, store: real)

  predicate Honours(v: Vault, visit: Visit) {
    Verdict(v, visit.token, visit.decode, visit.lookup).Ok?
  }

  function RevokeIfValid(v: Vault, visit: Visit, now: int): Vault {
    var remaining := Max(0, visit.token.exp - now);
    if Honours(v, visit) && remaining > 0 then Revoke(v, visit.token.jti, remaining, visit.store) else v
  }

  function LoggedOut(v: Vault, visits: seq<Visit>, now: int): Vault {
    if visits == [] then v
    else RevokeIfValid(LoggedOut(v, visits[..|visits| - 1], now), visits[|visits| - 1], now)
  }

  /** The tokens of the visits that verify, each at its own visit, in the vault that logout finds. */
  function Honoured(v: Vault, visits: seq<Visit>): set<Token> {
    set i | 0 <= i < |visits| && Honours(v, visits[i]) :: visits[i].token
  }

  lemma {:induction false} SameMinted(v: Vault, visits: seq<Visit>, now: int)
    ensures LoggedOut(v, visits, now).minted == v.minted && LoggedOut(v, visits, now).nextJti == v.nextJti
  {
    if visits != [] {
      SameMinted(v, visits[..|visits| - 1], now);
    }
  }

  /** The blacklist says the same of `t` in both. */
  predicate SameEntry(v: Vault, v': Vault, t: Token) {
    && (Blacklist(t.jti) in v.store <==> Blacklist(t.jti) in v'.store)
    && (Blacklist(t.jti) in v.store ==> v'.store[Blacklist(t.jti)] == v.store[Blacklist(t.jti)])
  }

  /** A token that verified at none of its visits keeps its entry, or stays without one. */
  lemma {:induction false} EntryStays(v: Vault, visits: seq<Visit>, now: int, t: Token)
    requires OwnId(v, t) && t in v.minted && t !in Honoured(v, visits)
    ensures SameEntry(v, LoggedOut(v, visits, now), t)
  {
    if visits != [] {
      var n := |visits| - 1;
      HonouredPrefix(v, visits, t);
      EntryStays(v, visits[..n], now, t);
      SameMinted(v, visits[..n], now);
      VisitLeaves(v, LoggedOut(v, visits[..n], now), visits[n], now, t);
    }
  }

  lemma HonouredPrefix(v: Vault, visits: seq<Visit>, t: Token)
    requires visits != []
    ensures var n := |visits| - 1;
            t in Honoured(v, visits) <==> t in Honoured(v, visits[..n]) || (Honours(v, visits[n])
                                                                            && visits[n].token == t)
  {
    var n := |visits| - 1;
    if t in Honoured(v, visits[..n]) {
      var i :| 0 <= i < n && Honours(v, visits[..n][i]) && visits[..n][i].token == t;
      assert visits[i] == visits[..n][i];
    }
    if t in Honoured(v, visits) {
      var i :| 0 <= i <= n && Honours(v, visits[i]) && visits[i].token == t;
      assert i < n ==> visits[..n][i] == visits[i];
    }
  }

  lemma VisitLeaves(v: Vault, w: Vault, visit: Visit, now: int, t: Token)
    requires OwnId(v, t) && t in v.minted && w.minted == v.minted && SameEntry(v, w, t)
    requires !(Honours(v, visit) && visit.token == t)
    ensures SameEntry(v, RevokeIfValid(w, visit, now), t)
  {
  }

  /** Logout changes the verdict on no token but those that verified when it came to them. */
  lemma OthersUntouched(v: Vault, visits: seq<Visit>, now: int, t: Token, decode: real, lookup: real)
    requires OwnId(v, t) && t !in Honoured(v, visits)
    ensures Verdict(LoggedOut(v, visits, now), t, decode, lookup) == Verdict(v, t, decode, lookup)
  {
    SameMinted(v, visits, now);
    if t in v.minted {
      EntryStays(v, visits, now, t);
    }
  }

  datatype Pair = Pair(access: Token, refresh: Token)

  datatype Lifetimes = Lifetimes(access: int, refresh: int)

  /** An access token next to a refresh token just minted. */
  function WithAccess(l: Lifetimes, v: Vault, user: string, now: real): Vault {
    Mint(v, Access, user, l.access, now)
  }

  /** The vault once both tokens of a pair are minted. */
  function AfterPair(l: Lifetimes, v: Vault, user: string, now: real): Vault {
    WithAccess(l, Mint(v, Refresh, user, l.refresh, now), user, now)
  }

  class AuthUseCases {
    const jwt: JwtHandler

    constructor (jwt: JwtHandler)
      ensures this.jwt == jwt
    {
      this.jwt := jwt;
    }

    function Lives(): Lifetimes {
      Lifetimes(jwt.accessTokenExpire * MINUTE, jwt.refreshTokenExpire * DAY)
    }

    method BuildTokenPair(user: string, toRotate: Option<Token>, c: Readings) returns (r: Result<Pair, AuthError>)
      modifies jwt, jwt.cache
      ensures r.Err? <==> toRotate.Some? && RotationCheck(old(jwt.View()), toRotate.value, user, c).Err?
      ensures r.Err? ==> r.error == Refused(RotationCheck(old(jwt.View()), toRotate.value, user, c).error)
                         && jwt.View() == old(jwt.View())
      ensures r.Ok? ==>
                var v := if toRotate.Some? then Retire(old(jwt.View()), toRotate.value, c) else old(jwt.View());
                && jwt.View() == AfterPair(Lives(), v, user, c.mint)
                && r.value == Pair(Token(v.nextJti + 1, Access, user, c.mint.Floor + 60 * jwt.accessTokenExpire),
                                   Token(v.nextJti, Refresh, user, c.mint.Floor + 86400 * jwt.refreshTokenExpire))
                && jwt.minted == old(jwt.minted) + {r.value.refresh, r.value.access}
      ensures toRotate.None? ==> forall d: Desk | d.vault == old(jwt.View()) ::
                  DoLogin(Lives(), d, user, c.mint).vault == jwt.View()
      ensures toRotate.Some? && toRotate.value.user == user ==> forall d: Desk | d.vault == old(jwt.View()) ::
                  DoFinish(Lives(), d, toRotate.value, c).vault == jwt.View()
    {
      var refresh: Token;
      if toRotate.Some? {
        var rotated := jwt.RotateRefreshToken(toRotate.value, user, c);
        if rotated.Err? {
          return Err(Refused(rotated.error));
        }
        refresh := rotated.value;
      } else {
        refresh := jwt.GenerateRefreshToken(user, c.mint);
      }
      var access := jwt.GenerateAccessToken(user, c.mint);
      r := Ok(Pair(access, refresh));
    }

    method BeginRefresh(t: Token, tDecode: real, tLookup: real) returns (r: Result<Token, AuthError>)
      ensures r == Presented(jwt.View(), t, tDecode, tLookup)
      ensures var accepted := Verdict(jwt.View(), t, tDecode, tLookup).Ok?;
              && (r == Ok(t) <==> accepted && t.kind == Refresh && t.user != "")
              && (r == Err(InvalidOrExpired) <==> !accepted)
              && (r == Err(NotARefreshToken) <==> accepted && t.kind != Refresh)
              && (r == Err(Malformed) <==> accepted && t.kind == Refresh && t.user == "")
      ensures forall d: Desk, request | d.vault == jwt.View() ::
                Step(Lives(), d, Begin(request, t, tDecode, tLookup))
                == d.(clock := tLookup, waiting := if r.Ok? then d.waiting[request := ForUser(t)] else d.waiting)
    {
      var verdict := jwt.VerifyToken(t, tDecode, tLookup);
      if verdict.Err? {
        return Err(InvalidOrExpired);
      }
      if verdict.value.kind != Refresh {
        return Err(NotARefreshToken);
      }
      if verdict.value.user == "" {
        return Err(Malformed);
      }
      r := Ok(verdict.value);
    }

    /** The source visits the access token, then the refresh token. */
    method Logout(visits: seq<Visit>, tNow: real)
      modifies jwt, jwt.cache
      ensures jwt.View() == LoggedOut(old(jwt.View()), visits, Trunc(tNow))
      ensures forall t, decode, lookup | OwnId(old(jwt.View()), t) && t !in Honoured(old(jwt.View()), visits) ::
                Verdict(jwt.View(), t, decode, lookup) == Verdict(old(jwt.View()), t, decode, lookup)
      ensures forall d: Desk | d.vault == old(jwt.View()) ::
                Step(Lives(), d, Event.Logout(visits, tNow)).vault == jwt.View()
    {
      var now := Trunc(tNow);
      var i := 0;
      while i < |visits|
        invariant 0 <= i <= |visits|
        invariant jwt.View() == LoggedOut(old(jwt.View()), visits[..i], now)
      {
        var verdict := jwt.VerifyToken(visits[i].token, visits[i].decode, visits[i].lookup);
        if verdict.Ok? {
          var remaining := if verdict.value.exp - now > 0 then verdict.value.exp - now else 0;
          if remaining > 0 {
            jwt.BlacklistToken(verdict.value.jti, remaining, visits[i].store);
          }
        }
        assert visits[..i + 1][..i] == visits[..i];
        i := i + 1;
      }
      assert visits[..i] == visits;
      forall t, decode, lookup | OwnId(old(jwt.View()), t) && t !in Honoured(old(jwt.View()), visits)
        ensures Verdict(jwt.View(), t, decode, lookup) == Verdict(old(jwt.View()), t, decode, lookup)
      {
        OthersUntouched(old(jwt.View()), visits, now, t, decode, lookup);
      }
    }
  }

  // ---------- Interleaved requests ----------

  /** A refresh between its sections: waiting for the user row, then for the user's claims. */
  datatype Waiting = ForUser(token: Token) | ForClaims(token: Token)

  datatype Rotation = Rotation(used: Token, successor: Token, at: Readings)

  datatype Event =
    | Login(user: string, now: real)
    | Begin(request: nat, token: Token, tDecode: real, tLookup: real)
    | FindUser(request: nat, found: bool)
    | Finish(request: nat, at: Readings)
    | Logout(visits: seq<Visit>, tNow: real)

  /**
   The state shared by all requests, and a record of what happened: `family` maps each refresh
   token's identifier to the login it descends from, and `tip` a family to its newest token.
   */
  datatype Desk = Desk(
    vault: Vault, waiting: map<nat, Waiting>, clock: real,
    rotated: seq<Rotation>, signedOut: set<Token>,
    family: map<nat, nat>, tip: map<nat, Token>)

  const START := Desk(Vault(map[], {}, 0), map[], 0.0, [], {}, map[], map[])

  predicate OnTime(t: Token, at: Readings) {
    at.left <= t.exp as real - 1.0
  }

  function DoLogin(l: Lifetimes, d: Desk, user: string, now: real): Desk {
    var t := Minted(d.vault, Refresh, user, l.refresh, now);
    d.(vault := AfterPair(l, d.vault, user, now), clock := now,
    family := d.family[t.jti := t.jti], tip := d.tip[t.jti := t])
  }

  function FamilyOf(d: Desk, t: Token): nat {
    if t.jti in d.family then d.family[t.jti] else t.jti
  }

  function DoFinish(l: Lifetimes, d: Desk, t: Token, at: Readings): Desk {
    if RotationCheck(d.vault, t, t.user, at).Err? then d.(clock := at.mint)
    else
      var retired := Retire(d.vault, t, at);
      var next := Minted(retired, Refresh, t.user, l.refresh, at.mint);
      var f := FamilyOf(d, t);
      d.(vault := AfterPair(l, retired, t.user, at.mint), clock := at.mint,
      rotated := d.rotated + [Rotation(t, next, at)],
      family := d.family[next.jti := f], tip := d.tip[f := next])
  }

  function EndOf(visits: seq<Visit>, tNow: real): real {
    if visits == [] then tNow else visits[|visits| - 1].store
  }

  function Step(l: Lifetimes, d: Desk, e: Event): Desk {
    match e
    case Login(user, now) => DoLogin(l, d, user, now)
    case Begin(request, token, tDecode, tLookup) =>
      var d' := d.(clock := tLookup);
      if Presented(d.vault, token, tDecode, tLookup).Ok? then d'.(waiting := d.waiting[request := ForUser(token)])
      else d'
    case FindUser(request, found) =>
      if request !in d.waiting then d
      else d.(waiting := if found then d.waiting[request := ForClaims(d.waiting[request].token)]
           else d.waiting - {request})
    case Finish(request, at) =>
      if request !in d.waiting then d
      else DoFinish(l, d, d.waiting[request].token, at).(waiting := d.waiting - {request})
    case Logout(visits, tNow) =>
      d.(vault := LoggedOut(d.vault, visits, Trunc(tNow)), clock := EndOf(visits, tNow),
      signedOut := d.signedOut + Honoured(d.vault, visits))
  }

  /** Readings within logout never go backwards. */
  predicate Onward(visits: seq<Visit>, tNow: real) {
    visits == [] ||
    var n := |visits| - 1;
    Onward(visits[..n], tNow) && EndOf(visits[..n], tNow) <= visits[n].decode <= visits[n].lookup <= visits[n].store
  }

  /** Clocks do not run backwards, and a request takes its sections in order, each once. */
  predicate Allowed(d: Desk, e: Event) {
    match e
    case Login(_, now) => d.clock <= now
    case Begin(request, _, tDecode, tLookup) => request !in d.waiting && d.clock <= tDecode <= tLookup
    case FindUser(request, _) => request in d.waiting && d.waiting[request].ForUser?
    case Finish(request, at) => request in d.waiting && d.waiting[request].ForClaims? && d.clock <= at.decode
                                && at.Ordered()
    case Logout(visits, tNow) => d.clock <= tNow && Onward(visits, tNow)
  }

  function Run(l: Lifetimes, events: seq<Event>): Desk {
    if events == [] then START
    else Step(l, Run(l, events[..|events| - 1]), events[|events| - 1])
  }

  ghost predicate Legal(l: Lifetimes, events: seq<Event>) {
    events != [] ==>
      var n := |events| - 1;
      Legal(l, events[..n]) && Allowed(Run(l, events[..n]), events[n])
  }

  // ---------- What every step keeps ----------

  /** The blacklist keeps the token out until `until`. */
  predicate BlockedUntil(v: Vault, t: Token, until: real) {
    Blacklist(t.jti) in v.store && v.store[Blacklist(t.jti)].deadline >= until
  }

  /** Out for all but less than the last second of its life. */
  predicate Spent(v: Vault, t: Token) {
    Blacklist(t.jti) in v.store && v.store[Blacklist(t.jti)].deadline > t.exp as real - 1.0
  }

  /** Identifiers are fresh: no two tokens share one, and none is blacklisted in advance. */
  ghost predicate Distinct(v: Vault) {
    && (forall t | t in v.minted :: t.jti < v.nextJti)
    && (forall t, u | t in v.minted && u in v.minted && t.jti == u.jti :: t == u)
    && (forall k | k in v.store && k.Blacklist? :: k.jti < v.nextJti)
  }

  /** `v'` comes from `v` by revoking and minting only, in a way that never shortens a block. */
  ghost predicate Grows(v: Vault, v': Vault) {
    && v.minted <= v'.minted && v.nextJti <= v'.nextJti && Distinct(v')
    && (forall t | t in v.minted && Spent(v, t) :: Spent(v', t))
    && (forall t | t in v.minted && BlockedUntil(v, t, t.exp as real) :: BlockedUntil(v', t, t.exp as real))
  }

  lemma MintGrows(v: Vault, kind: Kind, user: string, lifetime: int, now: real)
    requires Distinct(v)
    ensures Grows(v, Mint(v, kind, user, lifetime, now))
  {
  }

  lemma GrowsOn(v: Vault, v': Vault, v'': Vault)
    requires Grows(v, v') && Grows(v', v'')
    ensures Grows(v, v'')
  {
  }

  /** Revoking a token that still verified, for at least the whole seconds left, shortens no block. */
  lemma RetireGrows(v: Vault, t: Token, at: Readings)
    requires Distinct(v) && Verdict(v, t, at.decode, at.lookup).Ok? && at.Ordered()
    ensures Grows(v, Retire(v, t, at))
    ensures OnTime(t, at) ==> Spent(Retire(v, t, at), t)
  {
  }

  lemma RevokeIfValidGrows(v: Vault, visit: Visit, tNow: real)
    requires Distinct(v) && 0.0 <= tNow <= visit.decode <= visit.lookup <= visit.store
    ensures Grows(v, RevokeIfValid(v, visit, Trunc(tNow)))
    ensures Honours(v, visit) ==> BlockedUntil(RevokeIfValid(v, visit, Trunc(tNow)), visit.token,
                                               visit.token.exp as real)
  {
  }

  lemma EndAfterStart(visits: seq<Visit>, tNow: real)
    requires Onward(visits, tNow)
    ensures tNow <= EndOf(visits, tNow)
  {
  }

  lemma OwnIds(v: Vault, t: Token)
    requires Distinct(v)
    ensures OwnId(v, t)
  {
  }

  lemma {:induction false} LoggedOutGrows(v: Vault, visits: seq<Visit>, tNow: real)
    requires Distinct(v) && 0.0 <= tNow && Onward(visits, tNow)
    ensures Grows(v, LoggedOut(v, visits, Trunc(tNow)))
    ensures forall t | t in Honoured(v, visits) ::
              t in v.minted && BlockedUntil(LoggedOut(v, visits, Trunc(tNow)), t, t.exp as real)
  {
    if visits != [] {
      var n := |visits| - 1;
      var before, after := LoggedOut(v, visits[..n], Trunc(tNow)), LoggedOut(v, visits, Trunc(tNow));
      LoggedOutGrows(v, visits[..n], tNow);
      EndAfterStart(visits[..n], tNow);
      RevokeIfValidGrows(before, visits[n], tNow);
      SameMinted(v, visits[..n], Trunc(tNow));
      GrowsOn(v, before, after);
      forall t | t in Honoured(v, visits) ensures t in v.minted && BlockedUntil(after, t, t.exp as real) {
        HonouredPrefix(v, visits, t);
        if t !in Honoured(v, visits[..n]) {
          OwnIds(v, t);
          OthersUntouched(v, visits[..n], Trunc(tNow), t, visits[n].decode, visits[n].lookup);
        }
      }
    }
  }

  ghost predicate RotationsKept(d: Desk) {
    && (forall i | 0 <= i < |d.rotated| ::
          var r := d.rotated[i];
          && r.used in d.vault.minted && r.used.kind == Refresh && r.at.Ordered() && r.at.left <= d.clock
          && (OnTime(r.used, r.at) ==> Spent(d.vault, r.used)))
    && (forall i, j | 0 <= i < j < |d.rotated| && d.rotated[i].used == d.rotated[j].used ::
          d.rotated[j].at.lookup > d.rotated[j].used.exp as real - 1.0)
  }

  ghost predicate SignOutsKept(d: Desk) {
    forall t | t in d.signedOut :: t in d.vault.minted && BlockedUntil(d.vault, t, t.exp as real)
  }

  predicate Used(d: Desk, t: Token) {
    exists i | 0 <= i < |d.rotated| :: d.rotated[i].used == t
  }

  /** No token of the family was rotated twice. */
  ghost predicate Unforked(d: Desk, f: nat) {
    forall i, j | 0 <= i < j < |d.rotated| && d.rotated[i].used == d.rotated[j].used ::
      FamilyOf(d, d.rotated[i].used) != f
  }

  /** In a family without a fork every token but the newest was rotated. */
  ghost predicate FamiliesKept(d: Desk) {
    && (forall j | j in d.family :: d.family[j] < d.vault.nextJti)
    && (forall t | t in d.vault.minted && t.kind == Refresh :: t.jti in d.family && d.family[t.jti] in d.tip)
    && (forall t | t in d.vault.minted && t.kind == Refresh && Unforked(d, FamilyOf(d, t)) ::
          t == d.tip[FamilyOf(d, t)] || Used(d, t))
  }

  ghost predicate Invariant(d: Desk) {
    0.0 <= d.clock && Distinct(d.vault) && RotationsKept(d) && SignOutsKept(d) && FamiliesKept(d)
  }

  /** Steps that neither rotate nor mint refresh tokens keep everything. */
  lemma QuietKeeps(d: Desk, d': Desk)
    requires Invariant(d) && Grows(d.vault, d'.vault) && d.clock <= d'.clock
    requires forall t | t in d'.vault.minted && t.kind == Refresh :: t in d.vault.minted
    requires d'.rotated == d.rotated && d'.family == d.family && d'.tip == d.tip
    requires forall t | t in d'.signedOut && t !in d.signedOut :: t in d'.vault.minted
                                                                  && BlockedUntil(d'.vault, t, t.exp as real)
    ensures Invariant(d')
  {
  }

  lemma LogoutKeeps(l: Lifetimes, d: Desk, visits: seq<Visit>, tNow: real)
    requires Invariant(d) && Allowed(d, Logout(visits, tNow))
    ensures Invariant(Step(l, d, Logout(visits, tNow)))
  {
    LoggedOutGrows(d.vault, visits, tNow);
    SameMinted(d.vault, visits, Trunc(tNow));
    EndAfterStart(visits, tNow);
    QuietKeeps(d, Step(l, d, Logout(visits, tNow)));
  }

  /** Forks depend on the families of the rotated tokens only. */
  lemma SameForks(d: Desk, d': Desk, f: nat)
    requires d'.rotated == d.rotated
    requires forall i | 0 <= i < |d.rotated| :: FamilyOf(d', d.rotated[i].used) == FamilyOf(d, d.rotated[i].used)
    ensures Unforked(d', f) <==> Unforked(d, f)
  {
  }

  lemma LoginKeepsFamilies(l: Lifetimes, d: Desk, user: string, now: real)
    requires Distinct(d.vault) && RotationsKept(d) && FamiliesKept(d)
    ensures FamiliesKept(DoLogin(l, d, user, now))
  {
    var d' := DoLogin(l, d, user, now);
    forall i | 0 <= i < |d.rotated| ensures FamilyOf(d', d.rotated[i].used) == FamilyOf(d, d.rotated[i].used) {
      assert d.rotated[i].used in d.vault.minted;
    }
    forall t | t in d'.vault.minted && t.kind == Refresh && Unforked(d', FamilyOf(d', t))
      ensures t == d'.tip[FamilyOf(d', t)] || Used(d', t)
    {
      if t in d.vault.minted {
        SameForks(d, d', FamilyOf(d, t));
      }
    }
  }

  lemma LoginKeeps(l: Lifetimes, d: Desk, user: string, now: real)
    requires Invariant(d) && d.clock <= now
    ensures Invariant(DoLogin(l, d, user, now))
  {
    var v1 := Mint(d.vault, Refresh, user, l.refresh, now);
    var v2 := WithAccess(l, v1, user, now);
    MintGrows(d.vault, Refresh, user, l.refresh, now);
    MintGrows(v1, Access, user, l.access, now);
    GrowsOn(d.vault, v1, v2);
    LoginKeepsFamilies(l, d, user, now);
    GrownDesk(d, DoLogin(l, d, user, now));
  }

  /** What an unchanged record needs of the vault. */
  lemma GrownDesk(d: Desk, d': Desk)
    requires RotationsKept(d) && SignOutsKept(d) && Grows(d.vault, d'.vault) && d.clock <= d'.clock
    requires d'.rotated == d.rotated && d'.signedOut == d.signedOut
    ensures RotationsKept(d') && SignOutsKept(d')
  {
  }

  /** The vault after a successful rotation and the minting of its pair. */
  function AfterRotation(l: Lifetimes, v: Vault, t: Token, at: Readings): Vault {
    AfterPair(l, Retire(v, t, at), t.user, at.mint)
  }

  lemma RotationGrows(l: Lifetimes, v: Vault, t: Token, at: Readings)
    requires Distinct(v) && RotationCheck(v, t, t.user, at).Ok? && at.Ordered()
    ensures Grows(v, AfterRotation(l, v, t, at))
    ensures OnTime(t, at) ==> Spent(AfterRotation(l, v, t, at), t)
  {
    var retired := Retire(v, t, at);
    var v1 := Mint(retired, Refresh, t.user, l.refresh, at.mint);
    RetireGrows(v, t, at);
    MintGrows(retired, Refresh, t.user, l.refresh, at.mint);
    MintGrows(v1, Access, t.user, l.access, at.mint);
    GrowsOn(v, retired, v1);
    GrowsOn(v, v1, AfterRotation(l, v, t, at));
  }

  /** A token rotated before passes the check again only in the last second of its life. */
  lemma SecondRotationIsLate(d: Desk, i: nat, t: Token, at: Readings)
    requires RotationsKept(d) && i < |d.rotated| && d.rotated[i].used == t
    requires d.clock <= at.decode && at.Ordered() && Verdict(d.vault, t, at.decode, at.lookup).Ok?
    ensures at.lookup > t.exp as real - 1.0
  {
    var r := d.rotated[i];
    if OnTime(r.used, r.at) {
      assert Spent(d.vault, t);
    }
  }

  lemma FinishKeepsRotations(l: Lifetimes, d: Desk, t: Token, at: Readings)
    requires Invariant(d) && d.clock <= at.decode && at.Ordered() && RotationCheck(d.vault, t, t.user, at).Ok?
    ensures RotationsKept(DoFinish(l, d, t, at))
  {
    RotationGrows(l, d.vault, t, at);
    forall i | 0 <= i < |d.rotated| && d.rotated[i].used == t ensures at.lookup > t.exp as real - 1.0 {
      SecondRotationIsLate(d, i, t, at);
    }
  }

  /** Old tokens keep their families, and a fork stays one. */
  lemma FinishFamilies(l: Lifetimes, d: Desk, t: Token, at: Readings, u: Token)
    requires Invariant(d) && RotationCheck(d.vault, t, t.user, at).Ok?
    requires u in d.vault.minted && Unforked(DoFinish(l, d, t, at), FamilyOf(d, u))
    ensures FamilyOf(DoFinish(l, d, t, at), u) == FamilyOf(d, u)
    ensures Unforked(d, FamilyOf(d, u))
    ensures FamilyOf(d, u) == FamilyOf(d, t) ==> !Used(d, t)
  {
    var d' := DoFinish(l, d, t, at);
    forall i | 0 <= i < |d.rotated| ensures FamilyOf(d', d.rotated[i].used) == FamilyOf(d, d.rotated[i].used) {
      assert d.rotated[i].used in d.vault.minted;
    }
    forall i, j | 0 <= i < j < |d.rotated| && d.rotated[i].used == d.rotated[j].used
      ensures FamilyOf(d, d.rotated[i].used) != FamilyOf(d, u)
    {
      assert d'.rotated[i] == d.rotated[i] && d'.rotated[j] == d.rotated[j];
    }
    if i :| 0 <= i < |d.rotated| && d.rotated[i].used == t {
      assert d'.rotated[i].used == d'.rotated[|d.rotated|].used;
    }
  }

  lemma FinishKeepsFamilies(l: Lifetimes, d: Desk, t: Token, at: Readings)
    requires Invariant(d) && d.clock <= at.decode && at.Ordered() && RotationCheck(d.vault, t, t.user, at).Ok?
    ensures FamiliesKept(DoFinish(l, d, t, at))
  {
    var d' := DoFinish(l, d, t, at);
    var next := Minted(Retire(d.vault, t, at), Refresh, t.user, l.refresh, at.mint);
    forall u | u in d'.vault.minted && u.kind == Refresh && Unforked(d', FamilyOf(d', u))
      ensures u == d'.tip[FamilyOf(d', u)] || Used(d', u)
    {
      if u != next {
        assert u in d.vault.minted && FamilyOf(d', u) == FamilyOf(d, u);
        FinishFamilies(l, d, t, at, u);
        if Used(d, u) {
          UsedStays(d, d', u);
        }
        if FamilyOf(d, u) == FamilyOf(d, t) {
          assert d'.rotated[|d.rotated|].used == t;
        }
      }
    }
  }

  lemma UsedStays(d: Desk, d': Desk, u: Token)
    requires d.rotated <= d'.rotated && Used(d, u)
    ensures Used(d', u)
  {
    var i :| 0 <= i < |d.rotated| && d.rotated[i].used == u;
    assert d'.rotated[i].used == u;
  }

  lemma FinishKeeps(l: Lifetimes, d: Desk, t: Token, at: Readings)
    requires Invariant(d) && d.clock <= at.decode && at.Ordered()
    ensures Invariant(DoFinish(l, d, t, at))
  {
    if RotationCheck(d.vault, t, t.user, at).Ok? {
      RotationGrows(l, d.vault, t, at);
      FinishKeepsRotations(l, d, t, at);
      FinishKeepsFamilies(l, d, t, at);
    } else {
      QuietKeeps(d, DoFinish(l, d, t, at));
    }
  }

  /** The waiting requests and the passing of time play no part in the invariant. */
  lemma WaitKeeps(d: Desk, d': Desk)
    requires Invariant(d) && d.clock <= d'.clock && d' == d.(waiting := d'.waiting, clock := d'.clock)
    ensures Invariant(d')
  {
    forall f: nat ensures Unforked(d', f) <==> Unforked(d, f) {
      SameForks(d, d', f);
    }
    forall t | Used(d, t) ensures Used(d', t) {
      UsedStays(d, d', t);
    }
  }

  lemma StepKeeps(l: Lifetimes, d: Desk, e: Event)
    requires Invariant(d) && Allowed(d, e)
    ensures Invariant(Step(l, d, e))
  {
    match e
    case Login(user, now) => LoginKeeps(l, d, user, now);
    case Begin(_, _, _, _) => WaitKeeps(d, Step(l, d, e));
    case FindUser(_, _) => WaitKeeps(d, Step(l, d, e));
    case Finish(request, at) =>
      var d1 := DoFinish(l, d, d.waiting[request].token, at);
      FinishKeeps(l, d, d.waiting[request].token, at);
      WaitKeeps(d1, Step(l, d, e));
    case Logout(visits, tNow) => LogoutKeeps(l, d, visits, tNow);
  }

  lemma {:induction false} RunKeeps(l: Lifetimes, events: seq<Event>)
    requires Legal(l, events)
    ensures Invariant(Run(l, events))
  {
    if events != [] {
      var n := |events| - 1;
      RunKeeps(l, events[..n]);
      StepKeeps(l, Run(l, events[..n]), events[n]);
    }
  }

  // ---------- Guarantees over every interleaving ----------

  /** Every rotation of a token but its first looks it up less than a second before its expiry, or later. */
  lemma RotatedOnce(l: Lifetimes, events: seq<Event>, i: nat, j: nat)
    requires Legal(l, events)
    requires i < j < |Run(l, events).rotated| && Run(l, events).rotated[i].used == Run(l, events).rotated[j].used
    ensures var r := Run(l, events).rotated[j]; r.at.lookup > r.used.exp as real - 1.0
  {
    RunKeeps(l, events);
  }

  /** A rotated token is never accepted again by a lookup before the last second of its life. */
  lemma UsedIsSpent(d: Desk, t: Token, decode: real, lookup: real)
    requires Invariant(d) && d.clock <= lookup && Used(d, t) && Verdict(d.vault, t, decode, lookup).Ok?
    ensures lookup > t.exp as real - 1.0
  {
    var i :| 0 <= i < |d.rotated| && d.rotated[i].used == t;
    if OnTime(t, d.rotated[i].at) {
      assert Spent(d.vault, t);
    }
  }

  /** Accepted with these readings, by a lookup a second or more before the expiry. */
  predicate Accepted(d: Desk, t: Token, decode: real, lookup: real) {
    d.clock <= lookup <= t.exp as real - 1.0 && Verdict(d.vault, t, decode, lookup).Ok?
  }

  /**
   A login none of whose tokens was rotated twice has at most one refresh token that is accepted by a
   lookup a second or more before its expiry, whatever the readings.
   */
  lemma OneLiveToken(l: Lifetimes, events: seq<Event>, t: Token, decode: real, lookup: real,
                     u: Token, decode': real, lookup': real)
    requires Legal(l, events) && t.kind == Refresh && u.kind == Refresh
    requires Accepted(Run(l, events), t, decode, lookup) && Accepted(Run(l, events), u, decode', lookup')
    requires var d := Run(l, events); FamilyOf(d, t) == FamilyOf(d, u) && Unforked(d, FamilyOf(d, t))
    ensures t == u
  {
    RunKeeps(l, events);
    var d := Run(l, events);
    if t != d.tip[FamilyOf(d, t)] {
      UsedIsSpent(d, t, decode, lookup);
    } else if u != t {
      UsedIsSpent(d, u, decode', lookup');
    }
  }

  /** A login none of whose tokens was rotated in its last second has no fork. */
  lemma OnTimeUnforked(l: Lifetimes, events: seq<Event>, f: nat)
    requires Legal(l, events)
    requires var d := Run(l, events);
             forall i | 0 <= i < |d.rotated| && FamilyOf(d, d.rotated[i].used) == f ::
               OnTime(d.rotated[i].used, d.rotated[i].at)
    ensures Unforked(Run(l, events), f)
  {
    RunKeeps(l, events);
  }

  // ---------- How many tokens of a forked login are live ----------

  /** The refresh tokens of a login, and those of them that were rotated. */
  ghost function Members(d: Desk, f: nat): set<Token> {
    set t | t in d.vault.minted && t.kind == Refresh && FamilyOf(d, t) == f
  }

  ghost function UsedMembers(d: Desk, f: nat): set<Token> {
    set i | 0 <= i < |d.rotated| && FamilyOf(d, d.rotated[i].used) == f :: d.rotated[i].used
  }

  /** How often the first `n` rotations were of a token of the login. */
  function Rotations(d: Desk, f: nat, n: nat): nat
    requires n <= |d.rotated|
  {
    if n == 0 then 0 else Rotations(d, f, n - 1) + if FamilyOf(d, d.rotated[n - 1].used) == f then 1 else 0
  }

  /** A login starts with one token, and every rotation adds one. */
  ghost predicate MembersCounted(d: Desk, f: nat) {
    f in d.tip ==> |Members(d, f)| == 1 + Rotations(d, f, |d.rotated|)
  }

  ghost predicate SameFamilies(d: Desk, d': Desk) {
    forall t | t in d.vault.minted && t.kind == Refresh :: t in d'.vault.minted && FamilyOf(d', t) == FamilyOf(d, t)
  }

  lemma {:induction false} SameRotations(d: Desk, d': Desk, f: nat, n: nat)
    requires RotationsKept(d) && SameFamilies(d, d') && n <= |d.rotated| && d.rotated <= d'.rotated
    ensures Rotations(d', f, n) == Rotations(d, f, n)
  {
    if n > 0 {
      SameRotations(d, d', f, n - 1);
      assert d'.rotated[n - 1] == d.rotated[n - 1];
    }
  }

  /** Steps that mint no refresh token leave a login's tokens and rotations as they are. */
  lemma QuietMembers(d: Desk, d': Desk, f: nat)
    requires RotationsKept(d) && SameFamilies(d, d') && d'.rotated == d.rotated && d'.tip == d.tip
    requires forall t | t in d'.vault.minted && t.kind == Refresh :: t in d.vault.minted
    requires MembersCounted(d, f)
    ensures MembersCounted(d', f)
  {
    assert Members(d', f) == Members(d, f);
    SameRotations(d, d', f, |d.rotated|);
  }

  ghost predicate Adds(d: Desk, d': Desk, next: Token) {
    && next.kind == Refresh && next in d'.vault.minted && next !in d.vault.minted
    && (forall t | t in d'.vault.minted && t.kind == Refresh :: t == next || t in d.vault.minted)
  }

  lemma AddedMember(d: Desk, d': Desk, next: Token, f: nat)
    requires SameFamilies(d, d') && Adds(d, d', next)
    ensures |Members(d', f)| == |Members(d, f)| + if FamilyOf(d', next) == f then 1 else 0
  {
    if FamilyOf(d', next) == f {
      assert Members(d', f) == Members(d, f) + {next};
    } else {
      assert Members(d', f) == Members(d, f);
    }
  }

  /** What a login and a successful rotation have in common. */
  lemma MintedFamily(l: Lifetimes, d: Desk, user: string, now: real)
    requires Invariant(d)
    ensures var d', next := DoLogin(l, d, user, now), Minted(d.vault, Refresh, user, l.refresh, now);
            SameFamilies(d, d') && Adds(d, d', next) && FamilyOf(d', next) == next.jti
  {
  }

  lemma RotatedFamily(l: Lifetimes, d: Desk, t: Token, at: Readings)
    requires Invariant(d) && RotationCheck(d.vault, t, t.user, at).Ok?
    ensures var d', next := DoFinish(l, d, t, at), Minted(Retire(d.vault, t, at), Refresh, t.user, l.refresh, at.mint);
            && SameFamilies(d, d') && Adds(d, d', next) && FamilyOf(d', next) == FamilyOf(d, t)
            && d'.rotated == d.rotated + [Rotation(t, next, at)] && FamilyOf(d', t) == FamilyOf(d, t)
            && FamilyOf(d, t) in d.tip && d'.tip.Keys == d.tip.Keys
  {
  }

  lemma LoginMembers(l: Lifetimes, d: Desk, user: string, now: real, f: nat)
    requires Invariant(d) && MembersCounted(d, f)
    ensures MembersCounted(DoLogin(l, d, user, now), f)
  {
    var d', t := DoLogin(l, d, user, now), Minted(d.vault, Refresh, user, l.refresh, now);
    MintedFamily(l, d, user, now);
    AddedMember(d, d', t, f);
    SameRotations(d, d', f, |d.rotated|);
    if f == t.jti {
      NoMembers(d, f);
      NoRotations(d, f, |d.rotated|);
    }
  }

  lemma NoMembers(d: Desk, f: nat)
    requires FamiliesKept(d) && f == d.vault.nextJti
    ensures |Members(d, f)| == 0
  {
    assert Members(d, f) == {};
  }

  lemma {:induction false} NoRotations(d: Desk, f: nat, n: nat)
    requires RotationsKept(d) && FamiliesKept(d) && f == d.vault.nextJti && n <= |d.rotated|
    ensures Rotations(d, f, n) == 0
  {
    if n > 0 {
      NoRotations(d, f, n - 1);
      assert d.rotated[n - 1].used in d.vault.minted;
    }
  }

  lemma FinishMembers(l: Lifetimes, d: Desk, t: Token, at: Readings, f: nat)
    requires Invariant(d) && MembersCounted(d, f) && RotationCheck(d.vault, t, t.user, at).Ok?
    ensures MembersCounted(DoFinish(l, d, t, at), f)
  {
    var d' := DoFinish(l, d, t, at);
    RotatedFamily(l, d, t, at);
    AddedMember(d, d', Minted(Retire(d.vault, t, at), Refresh, t.user, l.refresh, at.mint), f);
    SameRotations(d, d', f, |d.rotated|);
    assert f in d'.tip ==> f in d.tip;
  }

  lemma StepMembers(l: Lifetimes, d: Desk, e: Event, f: nat)
    requires Invariant(d) && Allowed(d, e) && MembersCounted(d, f)
    ensures MembersCounted(Step(l, d, e), f)
  {
    var d' := Step(l, d, e);
    match e
    case Login(user, now) => LoginMembers(l, d, user, now, f);
    case Begin(_, _, _, _) => QuietMembers(d, d', f);
    case FindUser(_, _) => QuietMembers(d, d', f);
    case Finish(request, at) =>
      var t := d.waiting[request].token;
      if RotationCheck(d.vault, t, t.user, at).Ok? {
        FinishMembers(l, d, t, at, f);
        OnlyWaiting(DoFinish(l, d, t, at), d', f);
      } else {
        QuietMembers(d, d', f);
      }
    case Logout(visits, tNow) =>
      SameMinted(d.vault, visits, Trunc(tNow));
      QuietMembers(d, d', f);
  }

  lemma OnlyWaiting(d: Desk, d': Desk, f: nat)
    requires d' == d.(waiting := d'.waiting) && MembersCounted(d, f)
    ensures MembersCounted(d', f)
  {
    assert Members(d', f) == Members(d, f);
    SameCount(d, d', f, |d.rotated|);
  }

  lemma {:induction false} SameCount(d: Desk, d': Desk, f: nat, n: nat)
    requires d' == d.(waiting := d'.waiting) && n <= |d.rotated|
    ensures Rotations(d', f, n) == Rotations(d, f, n)
  {
    if n > 0 {
      SameCount(d, d', f, n - 1);
    }
  }

  lemma {:induction false} RunMembers(l: Lifetimes, events: seq<Event>, f: nat)
    requires Legal(l, events)
    ensures MembersCounted(Run(l, events), f)
  {
    if events != [] {
      var n := |events| - 1;
      RunMembers(l, events[..n], f);
      RunKeeps(l, events[..n]);
      StepMembers(l, Run(l, events[..n]), events[n], f);
    }
  }

  /** The login's tokens that such a lookup accepts. */
  ghost function LiveMembers(d: Desk, f: nat, decode: real, lookup: real): set<Token> {
    set t | t in d.vault.minted && t.kind == Refresh && FamilyOf(d, t) == f && Accepted(d, t, decode, lookup)
  }

  /** How often a token of the login was rotated that had been rotated before. */
  ghost function Repeats(d: Desk, f: nat): int {
    Rotations(d, f, |d.rotated|) - |UsedMembers(d, f)|
  }

  /**
   However often a login forked: at any instant it has at most one live refresh token more than it
   had repeated rotations, not counting tokens in their last second.
   */
  lemma LiveTokens(l: Lifetimes, events: seq<Event>, f: nat, decode: real, lookup: real)
    requires Legal(l, events) && f in Run(l, events).tip
    ensures |LiveMembers(Run(l, events), f, decode, lookup)| <= 1 + Repeats(Run(l, events), f)
  {
    var d := Run(l, events);
    RunKeeps(l, events);
    RunMembers(l, events, f);
    var live, used, all := LiveMembers(d, f, decode, lookup), UsedMembers(d, f), Members(d, f);
    forall t | t in live ensures t in all - used {
      if t in used {
        var i :| 0 <= i < |d.rotated| && d.rotated[i].used == t;
        UsedIsSpent(d, t, decode, lookup);
      }
    }
    assert used <= all;
    Fewer(live, all - used);
    assert |all - used| == |all| - |used|;
  }

  lemma Fewer(a: set<Token>, b: set<Token>)
    requires a <= b
    ensures |a| <= |b|
  {
    assert b == a + (b - a);
  }

  /**
   A token that verified when its logout came to it is accepted again only by a verification that
   decodes it before its expiry and looks it up at or after it; so at no single instant.
   */
  lemma SignedOutRefused(l: Lifetimes, events: seq<Event>, t: Token, decode: real, lookup: real)
    requires Legal(l, events) && Run(l, events).clock <= lookup && t in Run(l, events).signedOut
    ensures Verdict(Run(l, events).vault, t, decode, lookup).Ok? ==> decode < t.exp as real <= lookup
    ensures !Verifies(Run(l, events).vault, t, lookup)
  {
    RunKeeps(l, events);
  }

  /**
   Right after a logout: accepted exactly when decoded before the expiry and looked up after the end of
   the entry. The entry outlasts the token by what logout's own floored reading was early, so a pause
   between the two readings up to that long never helps.
   */
  lemma SignedOutExactly(v: Vault, visit: Visit, tNow: real, decode: real, lookup: real)
    requires Honours(v, visit) && 0.0 <= tNow <= visit.decode <= visit.lookup <= visit.store <= lookup
    ensures var t, extra := visit.token, visit.store - tNow.Floor as real;
            var accepted := Verdict(RevokeIfValid(v, visit, Trunc(tNow)), t, decode, lookup).Ok?;
            && extra >= 0.0
            && (accepted <==> decode < t.exp as real && t.exp as real + extra <= lookup)
            && (lookup - decode <= extra ==> !accepted)
  {
  }

  // ---------- The sections of a refresh come in order ----------

  predicate Touches(e: Event, request: nat) {
    !e.Login? && !e.Logout? && e.request == request
  }

  ghost predicate QuietSince(events: seq<Event>, i: nat, request: nat) {
    forall k | i < k < |events| :: !Touches(events[k], request)
  }

  /** The last thing the request did was to present the token at event `i`, which was in order then. */
  ghost predicate PresentedAt(l: Lifetimes, events: seq<Event>, request: nat, t: Token, i: nat) {
    && i < |events| && QuietSince(events, i, request)
    && events[i].Begin? && events[i].request == request && events[i].token == t
    && Presented(Run(l, events[..i]).vault, t, events[i].tDecode, events[i].tLookup).Ok?
  }

  /** The last thing was that its user was found at event `j`, and before that, that it presented the token. */
  ghost predicate FoundAt(l: Lifetimes, events: seq<Event>, request: nat, t: Token, j: nat) {
    && j < |events| && QuietSince(events, j, request) && events[j] == FindUser(request, true)
    && exists i: nat :: PresentedAt(l, events[..j], request, t, i)
  }

  ghost predicate WaitingMeans(l: Lifetimes, events: seq<Event>, request: nat) {
    var d := Run(l, events);
    request in d.waiting ==>
      match d.waiting[request]
      case ForUser(t) => exists i: nat :: PresentedAt(l, events, request, t, i)
      case ForClaims(t) => exists j: nat :: FoundAt(l, events, request, t, j)
  }

  lemma StillPresented(l: Lifetimes, events: seq<Event>, request: nat, t: Token, i: nat)
    requires events != [] && !Touches(events[|events| - 1], request)
    requires PresentedAt(l, events[..|events| - 1], request, t, i)
    ensures PresentedAt(l, events, request, t, i)
  {
    var n := |events| - 1;
    assert events[..n][..i] == events[..i];
    forall k | i < k < |events| ensures !Touches(events[k], request) {
      assert k < n ==> events[..n][k] == events[k];
    }
  }

  lemma StillFound(l: Lifetimes, events: seq<Event>, request: nat, t: Token, j: nat)
    requires events != [] && !Touches(events[|events| - 1], request)
    requires FoundAt(l, events[..|events| - 1], request, t, j)
    ensures FoundAt(l, events, request, t, j)
  {
    var n := |events| - 1;
    assert events[..n][..j] == events[..j];
    forall k | j < k < |events| ensures !Touches(events[k], request) {
      assert k < n ==> events[..n][k] == events[k];
    }
  }

  lemma OtherWaits(l: Lifetimes, events: seq<Event>, request: nat)
    requires events != [] && !Touches(events[|events| - 1], request)
    requires WaitingMeans(l, events[..|events| - 1], request)
    ensures WaitingMeans(l, events, request)
  {
    var before := events[..|events| - 1];
    var d := Run(l, before);
    if request in Run(l, events).waiting {
      assert request in d.waiting && Run(l, events).waiting[request] == d.waiting[request];
      var t := d.waiting[request].token;
      if d.waiting[request].ForUser? {
        var i: nat :| PresentedAt(l, before, request, t, i);
        StillPresented(l, events, request, t, i);
      } else {
        var j: nat :| FoundAt(l, before, request, t, j);
        StillFound(l, events, request, t, j);
      }
    }
  }

  lemma {:induction false} RunWaits(l: Lifetimes, events: seq<Event>, request: nat)
    requires Legal(l, events)
    ensures WaitingMeans(l, events, request)
  {
    if events != [] {
      var n := |events| - 1;
      var e, d := events[n], Run(l, events[..n]);
      RunWaits(l, events[..n], request);
      if !Touches(e, request) {
        OtherWaits(l, events, request);
      } else if e.Begin? && Presented(d.vault, e.token, e.tDecode, e.tLookup).Ok? {
        assert PresentedAt(l, events, request, e.token, n);
      } else if e.FindUser? && e.found {
        assert FoundAt(l, events, request, d.waiting[request].token, n);
      }
    }
  }

  /**
   Over every interleaving, a rotation is the last section of a request whose token was in order when it
   was presented and whose user was found since, and it rotates that token and no other.
   */
  lemma RotatesInOrder(l: Lifetimes, events: seq<Event>, request: nat, at: Readings)
    requires Legal(l, events) && Allowed(Run(l, events), Finish(request, at))
    ensures var d, d' := Run(l, events), Step(l, Run(l, events), Finish(request, at));
            var t := d.waiting[request].token;
            && (exists j: nat :: FoundAt(l, events, request, t, j))
            && request !in d'.waiting
            && if RotationCheck(d.vault, t, t.user, at).Ok?
               then |d'.rotated| == |d.rotated| + 1 && d'.rotated[|d.rotated|].used == t
               else d'.vault == d.vault && d'.rotated == d.rotated
  {
    RunWaits(l, events, request);
    var t := Run(l, events).waiting[request].token;
    assert Run(l, events).waiting[request] == ForClaims(t);
    var j: nat :| FoundAt(l, events, request, t, j);
    FinishOutcome(l, Run(l, events), request, at);
  }

  lemma FinishOutcome(l: Lifetimes, d: Desk, request: nat, at: Readings)
    requires Allowed(d, Finish(request, at))
    ensures var d', t := Step(l, d, Finish(request, at)), d.waiting[request].token;
            && request !in d'.waiting
            && if RotationCheck(d.vault, t, t.user, at).Ok?
               then |d'.rotated| == |d.rotated| + 1 && d'.rotated[|d.rotated|].used == t
               else d'.vault == d.vault && d'.rotated == d.rotated
  {
  }

  // ---------- Tokens that nobody rotated or signed out ----------

  /** Nothing is blacklisted but what was rotated or signed out. */
  ghost predicate OthersClear(d: Desk) {
    forall t | t in d.vault.minted && !Used(d, t) && t !in d.signedOut :: Blacklist(t.jti) !in d.vault.store
  }

  lemma PairClear(l: Lifetimes, d: Desk, v: Vault, user: string, now: real)
    requires Distinct(v) && v.minted == d.vault.minted && v.nextJti == d.vault.nextJti
    requires forall t | t in v.minted && !Used(d, t) && t !in d.signedOut :: Blacklist(t.jti) !in v.store
    ensures var w := AfterPair(l, v, user, now);
            forall t | t in w.minted && !Used(d, t) && t !in d.signedOut :: Blacklist(t.jti) !in w.store
  {
  }

  lemma FinishClear(l: Lifetimes, d: Desk, t: Token, at: Readings)
    requires Invariant(d) && OthersClear(d) && at.Ordered() && RotationCheck(d.vault, t, t.user, at).Ok?
    ensures OthersClear(DoFinish(l, d, t, at))
  {
    var d' := DoFinish(l, d, t, at);
    assert d'.rotated[|d.rotated|].used == t;
    forall u | u in d'.vault.minted && !Used(d', u) && u !in d'.signedOut ensures Blacklist(u.jti) !in d'.vault.store {
      if Used(d, u) {
        UsedStays(d, d', u);
      }
    }
  }

  lemma LogoutClear(l: Lifetimes, d: Desk, visits: seq<Visit>, tNow: real)
    requires Invariant(d) && OthersClear(d)
    ensures OthersClear(Step(l, d, Logout(visits, tNow)))
  {
    var d' := Step(l, d, Logout(visits, tNow));
    SameMinted(d.vault, visits, Trunc(tNow));
    forall t | t in d'.vault.minted && !Used(d', t) && t !in d'.signedOut ensures Blacklist(t.jti) !in d'.vault.store {
      OwnIds(d.vault, t);
      EntryStays(d.vault, visits, Trunc(tNow), t);
      if Used(d, t) {
        UsedStays(d, d', t);
      }
    }
  }

  lemma WaitClear(d: Desk, d': Desk)
    requires OthersClear(d) && d'.vault == d.vault && d'.rotated == d.rotated && d'.signedOut == d.signedOut
    ensures OthersClear(d')
  {
    forall t | Used(d, t) ensures Used(d', t) {
      UsedStays(d, d', t);
    }
  }

  lemma StepClear(l: Lifetimes, d: Desk, e: Event)
    requires Invariant(d) && OthersClear(d) && Allowed(d, e)
    ensures OthersClear(Step(l, d, e))
  {
    match e
    case Login(user, now) =>
      PairClear(l, d, d.vault, user, now);
      forall t | Used(d, t) ensures Used(Step(l, d, e), t) {
        UsedStays(d, Step(l, d, e), t);
      }
    case Begin(_, _, _, _) => WaitClear(d, Step(l, d, e));
    case FindUser(_, _) => WaitClear(d, Step(l, d, e));
    case Finish(request, at) =>
      var t := d.waiting[request].token;
      if RotationCheck(d.vault, t, t.user, at).Ok? {
        FinishClear(l, d, t, at);
        WaitClear(DoFinish(l, d, t, at), Step(l, d, e));
      } else {
        WaitClear(d, Step(l, d, e));
      }
    case Logout(visits, tNow) => LogoutClear(l, d, visits, tNow);
  }

  lemma {:induction false} RunClear(l: Lifetimes, events: seq<Event>)
    requires Legal(l, events)
    ensures OthersClear(Run(l, events))
  {
    if events != [] {
      var n := |events| - 1;
      RunClear(l, events[..n]);
      RunKeeps(l, events[..n]);
      StepClear(l, Run(l, events[..n]), events[n]);
    }
  }

  /**
   Over every interleaving: a token of either kind that was neither rotated nor signed out is accepted
   exactly by verifications that decode it before its expiry. Nothing that is done to another token,
   of the same login or of another one, shortens its life.
   */
  lemma AcceptedExactly(l: Lifetimes, events: seq<Event>, t: Token, decode: real, lookup: real)
    requires Legal(l, events)
    requires var d := Run(l, events); t in d.vault.minted && !Used(d, t) && t !in d.signedOut
    ensures Verdict(Run(l, events).vault, t, decode, lookup).Ok? <==> decode < t.exp as real
  {
    RunClear(l, events);
  }

  /** A successful rotation: one entry more, and a successor that nothing revokes. */
  lemma Successor(l: Lifetimes, d: Desk, t: Token, at: Readings)
    requires Invariant(d) && d.clock <= at.decode && at.Ordered() && RotationCheck(d.vault, t, t.user, at).Ok?
    ensures var d' := DoFinish(l, d, t, at);
            var next := d'.tip[FamilyOf(d, t)];
            && FamilyOf(d, t) in d'.tip
            && d'.rotated == d.rotated + [Rotation(t, next, at)]
            && next !in d.vault.minted && next.kind == Refresh && next in d'.vault.minted
            && Blacklist(next.jti) !in d'.vault.store
            && FamilyOf(d', next) == FamilyOf(d, t) && FamilyOf(d', t) == FamilyOf(d, t)
  {
  }

  /** When a token just rotated at `a` passes the check of another rotation at `b`. */
  lemma AgainExactly(l: Lifetimes, d: Desk, t: Token, a: Readings, b: Readings)
    requires Invariant(d) && a.Ordered() && b.Ordered() && a.mint <= b.decode
    requires RotationCheck(d.vault, t, t.user, a).Ok?
    ensures RotationCheck(DoFinish(l, d, t, a).vault, t, t.user, b).Ok?
       <==> b.decode < t.exp as real && RetiredEnd(t, a) <= b.lookup
  {
  }

  /** The first successor after the second rotation: rotating `t` touches no other token. */
  lemma StaysLive(l: Lifetimes, d: Desk, t: Token, at: Readings, x: Token)
    requires Invariant(d) && at.Ordered() && RotationCheck(d.vault, t, t.user, at).Ok?
    requires x in d.vault.minted && x != t && x.jti in d.family && Blacklist(x.jti) !in d.vault.store
    ensures var d' := DoFinish(l, d, t, at);
            x in d'.vault.minted && Blacklist(x.jti) !in d'.vault.store && FamilyOf(d', x) == FamilyOf(d, x)
  {
  }

  /** Two refreshes past their user lookups with the same token, of which the first rotates it at `a`. */
  ghost predicate Racing(d: Desk, first: nat, second: nat, t: Token, a: Readings) {
    && first != second
    && first in d.waiting && d.waiting[first] == ForClaims(t)
    && second in d.waiting && d.waiting[second] == ForClaims(t)
    && d.clock <= a.decode && a.Ordered() && RotationCheck(d.vault, t, t.user, a).Ok?
  }

  ghost predicate AcceptedUntilExpiry(d: Desk, t: Token) {
    forall decode, lookup :: Verdict(d.vault, t, decode, lookup).Ok? <==> decode < t.exp as real
  }

  /** Different tokens of one login, neither of them revoked. */
  ghost predicate Forked(d: Desk, x: Token, y: Token) {
    && x != y && FamilyOf(d, x) == FamilyOf(d, y) && x.kind == Refresh && y.kind == Refresh
    && AcceptedUntilExpiry(d, x) && AcceptedUntilExpiry(d, y)
  }

  lemma LiveUntil(d: Desk, x: Token)
    requires x in d.vault.minted && Blacklist(x.jti) !in d.vault.store
    ensures AcceptedUntilExpiry(d, x)
  {
  }

  lemma BothLive(l: Lifetimes, d: Desk, t: Token, a: Readings, b: Readings)
    requires Invariant(d) && d.clock <= a.decode && a.Ordered() && b.Ordered() && a.mint <= b.decode
    requires RotationCheck(d.vault, t, t.user, a).Ok?
    requires RotationCheck(DoFinish(l, d, t, a).vault, t, t.user, b).Ok?
    ensures var d2, n := DoFinish(l, DoFinish(l, d, t, a), t, b), |d.rotated|;
            |d2.rotated| == n + 2 && Forked(d2, d2.rotated[n].successor, d2.rotated[n + 1].successor)
  {
    var d1 := DoFinish(l, d, t, a);
    FinishKeeps(l, d, t, a);
    Successor(l, d, t, a);
    Successor(l, d1, t, b);
    var x, d2 := d1.tip[FamilyOf(d, t)], DoFinish(l, d1, t, b);
    StaysLive(l, d1, t, b, x);
    LiveUntil(d2, x);
    LiveUntil(d2, d2.tip[FamilyOf(d, t)]);
  }

  lemma BothRotate(l: Lifetimes, d: Desk, t: Token, a: Readings, b: Readings)
    requires Invariant(d) && d.clock <= a.decode && a.Ordered() && b.Ordered() && a.mint <= b.decode
    requires RotationCheck(d.vault, t, t.user, a).Ok?
    ensures var d1 := DoFinish(l, d, t, a);
            var d2 := DoFinish(l, d1, t, b);
            var n := |d.rotated|;
            && |d1.rotated| == n + 1
            && (|d2.rotated| == n + 2
                <==> b.decode < t.exp as real && RetiredEnd(t, a) <= b.lookup)
            && (|d2.rotated| == n + 2 ==> Forked(d2, d2.rotated[n].successor, d2.rotated[n + 1].successor))
  {
    AgainExactly(l, d, t, a, b);
    if RotationCheck(DoFinish(l, d, t, a).vault, t, t.user, b).Ok? {
      BothLive(l, d, t, a, b);
    }
  }

  /** Requests waiting elsewhere do not matter to a rotation. */
  lemma FinishIgnoresWaiting(l: Lifetimes, d: Desk, t: Token, at: Readings, waiting: map<nat, Waiting>)
    ensures DoFinish(l, d.(waiting := waiting), t, at) == DoFinish(l, d, t, at).(waiting := waiting)
  {
  }

  lemma RaceSteps(l: Lifetimes, d: Desk, first: nat, second: nat, t: Token, a: Readings, b: Readings)
    requires Invariant(d) && Racing(d, first, second, t, a) && a.mint <= b.decode && b.Ordered()
    ensures var d1 := Step(l, d, Finish(first, a));
            var d2 := Step(l, d1, Finish(second, b));
            && Allowed(d, Finish(first, a)) && Allowed(d1, Finish(second, b))
            && d1 == DoFinish(l, d, t, a).(waiting := d.waiting - {first})
            && d2 == DoFinish(l, DoFinish(l, d, t, a), t, b).(waiting := d.waiting - {first} - {second})
  {
    FinishIgnoresWaiting(l, DoFinish(l, d, t, a), t, b, d.waiting - {first});
  }

  lemma ForkedIgnoresWaiting(d: Desk, x: Token, y: Token, waiting: map<nat, Waiting>)
    requires Forked(d, x, y)
    ensures Forked(d.(waiting := waiting), x, y)
  {
  }

  /**
   When two refreshes of one token both wait for their last section, and run it at `a` and then at
   `b`, the second also succeeds exactly when it decodes the token before its expiry and looks it up
   after the end of the first one's blacklist entry. Then the login's chain has forked.
   */
  lemma ForksExactly(
    l: Lifetimes, events: seq<Event>, first: nat, second: nat, t: Token, a: Readings, b: Readings)
    requires Legal(l, events) && Racing(Run(l, events), first, second, t, a) && a.mint <= b.decode && b.Ordered()
    ensures var d := Run(l, events);
            var d1 := Step(l, d, Finish(first, a));
            var d2 := Step(l, d1, Finish(second, b));
            var n := |d.rotated|;
            && Allowed(d, Finish(first, a)) && Allowed(d1, Finish(second, b))
            && |d1.rotated| == n + 1
            && (|d2.rotated| == n + 2
                <==> b.decode < t.exp as real && RetiredEnd(t, a) <= b.lookup)
            && (|d2.rotated| == n + 2 ==> Forked(d2, d2.rotated[n].successor, d2.rotated[n + 1].successor))
  {
    RunKeeps(l, events);
    var d, n := Run(l, events), |Run(l, events).rotated|;
    var d2 := DoFinish(l, DoFinish(l, d, t, a), t, b);
    RaceSteps(l, d, first, second, t, a, b);
    BothRotate(l, d, t, a, b);
    if |d2.rotated| == n + 2 {
      ForkedIgnoresWaiting(d2, d2.rotated[n].successor, d2.rotated[n + 1].successor, d.waiting - {first} - {second});
    }
  }

  // ---------- A run that forks ----------

  /** One login; two refreshes of its token begin and find the user half a second before it expires. */
  function Race(l: Lifetimes, user: string, t: Token): seq<Event> {
    [Login(user, 0.0), Begin(0, t, Late(l), Late(l)), FindUser(0, true), Begin(1, t, Late(l), Late(l)),
     FindUser(1, true)]
  }

  lemma OneMore(l: Lifetimes, events: seq<Event>, e: Event)
    requires Legal(l, events) && Allowed(Run(l, events), e)
    ensures Legal(l, events + [e]) && Run(l, events + [e]) == Step(l, Run(l, events), e)
  {
    var more := events + [e];
    assert more[..|more| - 1] == events;
  }

  lemma LoginRun(l: Lifetimes, user: string)
    ensures Legal(l, [Login(user, 0.0)]) && Run(l, [Login(user, 0.0)]) == DoLogin(l, START, user, 0.0)
  {
    assert [] + [Login(user, 0.0)] == [Login(user, 0.0)];
    OneMore(l, [], Login(user, 0.0));
  }

  /** The token of the login, and the moment half a second before it expires. */
  function Only(l: Lifetimes, user: string): Token {
    Minted(START.vault, Refresh, user, l.refresh, 0.0)
  }

  function Late(l: Lifetimes): real {
    l.refresh as real - 0.5
  }

  lemma LatePresented(l: Lifetimes, user: string)
    requires l.refresh >= 1 && user != ""
    ensures Presented(DoLogin(l, START, user, 0.0).vault, Only(l, user), Late(l), Late(l)).Ok?
    ensures RotationCheck(DoLogin(l, START, user, 0.0).vault, Only(l, user), user, Moment(Late(l))).Ok?
  {
  }

  /** A request begins and finds its user. */
  lemma Arrives(l: Lifetimes, events: seq<Event>, d: Desk, request: nat, t: Token, now: real)
    requires Legal(l, events) && Run(l, events) == d && request !in d.waiting && d.clock <= now
    requires Presented(d.vault, t, now, now).Ok?
    ensures var more := events + [Begin(request, t, now, now)] + [FindUser(request, true)];
            Legal(l, more) && Run(l, more) == d.(clock := now, waiting := d.waiting[request := ForClaims(t)])
  {
    OneMore(l, events, Begin(request, t, now, now));
    OneMore(l, events + [Begin(request, t, now, now)], FindUser(request, true));
  }

  lemma RaceRun(l: Lifetimes, user: string)
    requires l.refresh >= 1 && user != ""
    ensures var race := Race(l, user, Only(l, user));
            && Legal(l, race)
            && Run(l, race) == DoLogin(l, START, user, 0.0).(
                               clock := Late(l),
                               waiting := map[0 := ForClaims(Only(l, user)), 1 := ForClaims(Only(l, user))])
  {
    var t, now := Only(l, user), Late(l);
    var login := [Login(user, 0.0)];
    LoginRun(l, user);
    LatePresented(l, user);
    Arrives(l, login, DoLogin(l, START, user, 0.0), 0, t, now);
    var one := login + [Begin(0, t, now, now)] + [FindUser(0, true)];
    Arrives(l, one, Run(l, one), 1, t, now);
    assert Race(l, user, t) == one + [Begin(1, t, now, now)] + [FindUser(1, true)];
  }

  /** So chains do fork: for every lifetime, from a login through to two refresh tokens that verify. */
  lemma ForkRun(l: Lifetimes, user: string)
    requires l.refresh >= 1 && user != ""
    ensures var t, at := Only(l, user), Moment(Late(l));
            var events := Race(l, user, t) + [Finish(0, at), Finish(1, at)];
            var d := Run(l, events);
            && Legal(l, events) && |d.rotated| == 2 && d.rotated[0].used == d.rotated[1].used == t
            && Forked(d, d.rotated[0].successor, d.rotated[1].successor)
  {
    var t, at := Only(l, user), Moment(Late(l));
    var race := Race(l, user, t);
    RaceRun(l, user);
    LatePresented(l, user);
    assert Racing(Run(l, race), 0, 1, t, at);
    ForksExactly(l, race, 0, 1, t, at, at);
    OneMore(l, race, Finish(0, at));
    OneMore(l, race + [Finish(0, at)], Finish(1, at));
    assert race + [Finish(0, at)] + [Finish(1, at)] == race + [Finish(0, at), Finish(1, at)];
  }

  // ---------- A signed-out token that is rotated after all ----------

  /** A refresh arrives, the session is signed out, and the refresh finishes across the token's expiry. */
  function Straddling(l: Lifetimes, user: string): seq<Event> {
    var t, exp := Only(l, user), l.refresh as real;
    [Login(user, 0.0)] + [Begin(0, t, 1.0, 1.0)] + [FindUser(0, true)]
    + [Logout([Visit(t, 1.0, 1.0, 1.0)], 1.0)] + [Finish(0, Readings(exp - 0.5, exp, exp, exp, exp))]
  }

  lemma SignedOutOnce(l: Lifetimes, user: string)
    requires l.refresh >= 2 && user != ""
    ensures var t, v := Only(l, user), DoLogin(l, START, user, 0.0).vault;
            && Presented(v, t, 1.0, 1.0).Ok?
            && LoggedOut(v, [Visit(t, 1.0, 1.0, 1.0)], 1) == Revoke(v, t.jti, l.refresh - 1, 1.0)
            && Honoured(v, [Visit(t, 1.0, 1.0, 1.0)]) == {t}
            && Onward([Visit(t, 1.0, 1.0, 1.0)], 1.0)
  {
    var t, visits := Only(l, user), [Visit(Only(l, user), 1.0, 1.0, 1.0)];
    assert visits[..0] == [];
    assert Presented(DoLogin(l, START, user, 0.0).vault, t, 1.0, 1.0).Ok?;
  }

  lemma StraddlingRun(l: Lifetimes, user: string)
    requires l.refresh >= 2 && user != ""
    ensures var t, d := Only(l, user), Run(l, Straddling(l, user));
            && Legal(l, Straddling(l, user)) && t in d.signedOut
            && |d.rotated| == 1 && d.rotated[0].used == t
            && d.rotated[0].successor in d.vault.minted && AcceptedUntilExpiry(d, d.rotated[0].successor)
  {
    var t, exp := Only(l, user), l.refresh as real;
    var login, d0 := [Login(user, 0.0)], DoLogin(l, START, user, 0.0);
    LoginRun(l, user);
    SignedOutOnce(l, user);
    Arrives(l, login, d0, 0, t, 1.0);
    var waits := login + [Begin(0, t, 1.0, 1.0)] + [FindUser(0, true)];
    var logout, finish := Logout([Visit(t, 1.0, 1.0, 1.0)], 1.0), Finish(0, Readings(exp - 0.5, exp, exp, exp, exp));
    OneMore(l, waits, logout);
    RunKeeps(l, waits + [logout]);
    OneMore(l, waits + [logout], finish);
    Straddles(l, Run(l, waits + [logout]), t, exp);
  }

  /** The last step: decoded half a second before the expiry, looked up when the entry has just ended. */
  lemma Straddles(l: Lifetimes, d: Desk, t: Token, exp: real)
    requires Invariant(d) && d.rotated == [] && d.clock <= exp - 0.5 && exp == t.exp as real
    requires t in d.vault.minted && t.kind == Refresh && Blacklist(t.jti) in d.vault.store
    requires d.vault.store[Blacklist(t.jti)].deadline == exp
    ensures var d' := DoFinish(l, d, t, Readings(exp - 0.5, exp, exp, exp, exp));
            && |d'.rotated| == 1 && d'.rotated[0].used == t && d'.signedOut == d.signedOut
            && d'.rotated[0].successor in d'.vault.minted && AcceptedUntilExpiry(d', d'.rotated[0].successor)
  {
    var at := Readings(exp - 0.5, exp, exp, exp, exp);
    Successor(l, d, t, at);
    LiveUntil(DoFinish(l, d, t, at), DoFinish(l, d, t, at).rotated[0].successor);
  }

  // ---------- As many live tokens as the bound allows ----------

  /** `m` refreshes of one token arrive in its last second. */
  function Crowd(l: Lifetimes, user: string, m: nat): seq<Event> {
    if m == 0 then [Login(user, 0.0)]
    else
      Crowd(l, user, m - 1) + [Begin(m - 1, Only(l, user), Late(l), Late(l))] + [FindUser(m - 1, true)]
  }

  /** Then `k` of them finish. */
  function Finishes(events: seq<Event>, l: Lifetimes, k: nat): seq<Event> {
    if k == 0 then events else Finishes(events, l, k - 1) + [Finish(k - 1, Moment(Late(l)))]
  }

  /** The login, with `m` requests waiting for their claims. */
  ghost predicate Crowded(l: Lifetimes, user: string, d: Desk, m: nat) {
    && d.clock <= Late(l) && d == DoLogin(l, START, user, 0.0).(clock := d.clock, waiting := d.waiting)
    && (forall r | r in d.waiting :: r < m)
    && (forall r | 0 <= r < m :: r in d.waiting && d.waiting[r] == ForClaims(Only(l, user)))
  }

  lemma OneArrives(l: Lifetimes, user: string, events: seq<Event>, m: nat)
    requires l.refresh >= 2 && user != "" && Legal(l, events) && Crowded(l, user, Run(l, events), m)
    ensures var more := events + [Begin(m, Only(l, user), Late(l), Late(l))] + [FindUser(m, true)];
            Legal(l, more) && Crowded(l, user, Run(l, more), m + 1)
  {
    LatePresented(l, user);
    Arrives(l, events, Run(l, events), m, Only(l, user), Late(l));
  }

  ghost predicate CrowdWaits(l: Lifetimes, user: string, m: nat) {
    Legal(l, Crowd(l, user, m)) && Crowded(l, user, Run(l, Crowd(l, user, m)), m)
  }

  lemma NobodyYet(l: Lifetimes, user: string)
    requires l.refresh >= 2
    ensures CrowdWaits(l, user, 0)
  {
    LoginRun(l, user);
  }

  lemma CrowdGrows(l: Lifetimes, user: string, m: nat)
    requires l.refresh >= 2 && user != "" && CrowdWaits(l, user, m)
    ensures CrowdWaits(l, user, m + 1)
  {
    OneArrives(l, user, Crowd(l, user, m), m);
  }

  lemma {:induction false} CrowdRun(l: Lifetimes, user: string, m: nat)
    requires l.refresh >= 2 && user != ""
    ensures CrowdWaits(l, user, m)
  {
    if m == 0 {
      NobodyYet(l, user);
    } else {
      CrowdRun(l, user, m - 1);
      CrowdGrows(l, user, m - 1);
    }
  }

  /** After `k` of `m` have finished: nothing is blacklisted, and all tokens but the old one are fresh. */
  ghost predicate Finished(l: Lifetimes, user: string, d: Desk, m: nat, k: nat) {
    var t := Only(l, user);
    && d.clock <= Late(l) && d.vault.store == map[] && t in d.vault.minted && FamilyOf(d, t) == t.jti && t.jti in d.tip
    && |d.rotated| == k && (forall i | 0 <= i < k :: d.rotated[i].used == t)
    && (forall r | k <= r < m :: r in d.waiting && d.waiting[r] == ForClaims(t))
    && (forall u | u in d.vault.minted && u.kind == Refresh :: u == t || u.exp as real >= Late(l) + 1.0)
  }

  lemma OneFinishes(l: Lifetimes, user: string, d: Desk, m: nat, k: nat)
    requires l.refresh >= 2 && user != "" && Invariant(d) && Finished(l, user, d, m, k) && k < m
    ensures Allowed(d, Finish(k, Moment(Late(l))))
            && Finished(l, user, Step(l, d, Finish(k, Moment(Late(l)))), m, k + 1)
  {
    var t, at := Only(l, user), Moment(Late(l));
    assert RotationCheck(d.vault, t, t.user, at).Ok? && Remaining(t, at) == 0;
    Successor(l, d, t, at);
  }

  lemma NoneFinished(l: Lifetimes, user: string, d: Desk, m: nat)
    requires l.refresh >= 2 && Crowded(l, user, d, m)
    ensures Finished(l, user, d, m, 0)
  {
  }

  lemma FinishInRun(l: Lifetimes, user: string, events: seq<Event>, m: nat, k: nat)
    requires l.refresh >= 2 && user != "" && k < m && Legal(l, events) && Finished(l, user, Run(l, events), m, k)
    ensures var more := events + [Finish(k, Moment(Late(l)))];
            Legal(l, more) && Finished(l, user, Run(l, more), m, k + 1)
  {
    RunKeeps(l, events);
    OneFinishes(l, user, Run(l, events), m, k);
    OneMore(l, events, Finish(k, Moment(Late(l))));
  }

  lemma {:induction false} FinishesRun(l: Lifetimes, user: string, m: nat, k: nat)
    requires l.refresh >= 2 && user != "" && k <= m
    ensures var events := Finishes(Crowd(l, user, m), l, k);
            Legal(l, events) && Finished(l, user, Run(l, events), m, k)
  {
    if k == 0 {
      CrowdRun(l, user, m);
      NoneFinished(l, user, Run(l, Crowd(l, user, m)), m);
    } else {
      FinishesRun(l, user, m, k - 1);
      FinishInRun(l, user, Finishes(Crowd(l, user, m), l, k - 1), m, k - 1);
    }
  }

  lemma {:induction false} AllRotations(d: Desk, t: Token, n: nat)
    requires n <= |d.rotated| && forall i | 0 <= i < |d.rotated| :: d.rotated[i].used == t
    ensures Rotations(d, FamilyOf(d, t), n) == n
  {
    if n > 0 {
      AllRotations(d, t, n - 1);
    }
  }

  /** For every number of repeats there is a run with one live token more than that. */
  lemma LiveTokensSharp(l: Lifetimes, user: string, repeats: nat)
    requires l.refresh >= 2 && user != ""
    ensures var events := Finishes(Crowd(l, user, repeats + 1), l, repeats + 1);
            var d, f := Run(l, events), Only(l, user).jti;
            && Legal(l, events) && Repeats(d, f) == repeats
            && |LiveMembers(d, f, Late(l), Late(l))| == 1 + repeats
  {
    var n := repeats + 1;
    var events := Finishes(Crowd(l, user, n), l, n);
    FinishesRun(l, user, n, n);
    RunKeeps(l, events);
    RunMembers(l, events, Only(l, user).jti);
    AllLive(l, user, Run(l, events), n);
  }

  lemma AllLive(l: Lifetimes, user: string, d: Desk, n: nat)
    requires n > 0 && l.refresh >= 2 && Invariant(d) && Finished(l, user, d, n, n)
             && MembersCounted(d, Only(l, user).jti)
    ensures Repeats(d, Only(l, user).jti) == n - 1 && |LiveMembers(d, Only(l, user).jti, Late(l), Late(l))| == n
  {
    var t, f := Only(l, user), Only(l, user).jti;
    AllRotations(d, t, n);
    assert d.rotated[0].used == t;
    assert UsedMembers(d, f) == {t};
    assert LiveMembers(d, f, Late(l), Late(l)) == Members(d, f) - {t};
  }
}
