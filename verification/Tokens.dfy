/**
 Tokens and their revocation. A token is its claims; only tokens minted here carry a good
 signature. Expiries are whole seconds, clocks are not.
 */
module Tokens {
  import opened Results
  import opened TtlCache

  datatype Kind = Access | Refresh

  datatype Token = Token(jti: nat, kind: Kind, user: string, exp: int)

  datatype TokenError = BadSignature | Expired | Revoked | NotRefresh | WrongUser

  /** The blacklist, the tokens signed so far, and the next fresh identifier. */
  datatype Vault = Vault(store: Store, minted: set<Token>, nextJti: nat)

  function Trunc(x: real): int {
    if x >= 0.0 then x.Floor else -((-x).Floor)
  }

  function Verdict(v: Vault, t: Token, tDecode: real, tLookup: real): Result<Token, TokenError> {
    if t !in v.minted then Err(BadSignature)
    else if t.exp as real <= tDecode then Err(Expired)
    else if Live(v.store, Blacklist(t.jti), tLookup) then Err(Revoked)
    else Ok(t)
  }

  predicate Verifies(v: Vault, t: Token, now: real) {
    Verdict(v, t, now, now).Ok?
  }

  function Minted(v: Vault, kind: Kind, user: string, lifetime: int, now: real): Token {
    Token(v.nextJti, kind, user, now.Floor + lifetime)
  }

  function Mint(v: Vault, kind: Kind, user: string, lifetime: int, now: real): Vault {
    v.(minted := v.minted + {Minted(v, kind, user, lifetime, now)}, nextJti := v.nextJti + 1)
  }

  function Revoke(v: Vault, jti: nat, ttl: int, now: real): Vault {
    v.(store := v.store[Blacklist(jti) := Entry(1, now + ttl as real)])
  }

  /** The clock readings of one rotation, in the order they are taken. */
  datatype Readings = Readings(decode: real, lookup: real, left: real, store: real, mint: real) {
    predicate Ordered() {
      decode <= lookup <= left <= store <= mint
    }
  }

  function Remaining(t: Token, c: Readings): int {
    Trunc(t.exp as real - c.left)
  }

  /** The checks of `rotate_refresh_token`, then the blacklist entry when a whole second remains. */
  function RotationCheck(v: Vault, t: Token, user: string, c: Readings): Result<Token, TokenError> {
    var verdict := Verdict(v, t, c.decode, c.lookup);
    if verdict.Err? then verdict
    else if t.kind != Refresh then Err(NotRefresh)
    else if t.user != user then Err(WrongUser)
    else Ok(t)
  }

  function Retire(v: Vault, t: Token, c: Readings): Vault {
    if Remaining(t, c) > 0 then Revoke(v, t.jti, Remaining(t, c), c.store) else v
  }

  /** When the blacklist entry of a rotation ends: at `c.store` plus the whole seconds left, if there is one. */
  function RetiredEnd(t: Token, c: Readings): real {
    var left := t.exp as real - c.left;
    c.store + if left > 0.0 then left.Floor as real else 0.0
  }

  const MINUTE := 60
  const DAY := 86400

  class JwtHandler {
    const cache: Cache
    const accessTokenExpire: int
    const refreshTokenExpire: int
    var minted: set<Token>
    var nextJti: nat

    constructor (cache: Cache, accessTokenExpire: int, refreshTokenExpire: int)
      ensures this.cache == cache && View() == Vault(cache.store, {}, 0)
      ensures this.accessTokenExpire == accessTokenExpire && this.refreshTokenExpire == refreshTokenExpire
    {
      this.cache := cache;
      this.accessTokenExpire := accessTokenExpire;
      this.refreshTokenExpire := refreshTokenExpire;
      minted := {};
      nextJti := 0;
    }

    function View(): Vault
      reads this, cache
    {
      Vault(cache.store, minted, nextJti)
    }

    method GenerateAccessToken(user: string, now: real) returns (t: Token)
      modifies this
      ensures t == Minted(old(View()), Access, user, accessTokenExpire * MINUTE, now)
      ensures View() == Mint(old(View()), Access, user, accessTokenExpire * MINUTE, now)
      ensures t == Token(old(nextJti), Access, user, now.Floor + 60 * accessTokenExpire)
      ensures minted == old(minted) + {t} && nextJti == old(nextJti) + 1
    {
      t := Token(nextJti, Access, user, now.Floor + accessTokenExpire * MINUTE);
      minted := minted + {t};
      nextJti := nextJti + 1;
    }

    method GenerateRefreshToken(user: string, now: real) returns (t: Token)
      modifies this
      ensures t == Minted(old(View()), Refresh, user, refreshTokenExpire * DAY, now)
      ensures View() == Mint(old(View()), Refresh, user, refreshTokenExpire * DAY, now)
      ensures t == Token(old(nextJti), Refresh, user, now.Floor + 86400 * refreshTokenExpire)
      ensures minted == old(minted) + {t} && nextJti == old(nextJti) + 1
    {
      t := Token(nextJti, Refresh, user, now.Floor + refreshTokenExpire * DAY);
      minted := minted + {t};
      nextJti := nextJti + 1;
    }

    method BlacklistToken(jti: nat, ttlSeconds: int, now: real)
      modifies cache
      ensures View() == Revoke(old(View()), jti, ttlSeconds, now)
      ensures cache.store == old(cache.store)[Blacklist(jti) := Entry(1, now + ttlSeconds as real)]
    {
      cache.Set(Blacklist(jti), 1, ttlSeconds as real, now);
    }

    method IsBlacklisted(jti: nat, now: real) returns (b: bool)
      ensures b == Live(cache.store, Blacklist(jti), now)
    {
      var found := cache.Get(Blacklist(jti), now);
      b := found.Some?;
    }

    method VerifyToken(t: Token, tDecode: real, tLookup: real) returns (r: Result<Token, TokenError>)
      ensures r == Verdict(View(), t, tDecode, tLookup)
      ensures r.Ok? <==> t in minted && tDecode < t.exp as real && !Live(cache.store, Blacklist(t.jti), tLookup)
      ensures r == Err(BadSignature) <==> t !in minted
      ensures r == Err(Expired) <==> t in minted && t.exp as real <= tDecode
    {
      if t !in minted {
        return Err(BadSignature);
      }
      if t.exp as real <= tDecode {
        return Err(Expired);
      }
      var revoked := IsBlacklisted(t.jti, tLookup);
      r := if revoked then Err(Revoked) else Ok(t);
    }

    method RotateRefreshToken(t: Token, user: string, c: Readings) returns (r: Result<Token, TokenError>)
      modifies this, cache
      ensures r.Err? <==> RotationCheck(old(View()), t, user, c).Err?
      ensures r.Err? ==> View() == old(View()) && r == RotationCheck(old(View()), t, user, c)
      ensures r.Ok? ==>
                var retired := Retire(old(View()), t, c);
                && r.value == Minted(retired, Refresh, user, refreshTokenExpire * DAY, c.mint)
                && View() == Mint(retired, Refresh, user, refreshTokenExpire * DAY, c.mint)
      ensures var accepted := Verdict(old(View()), t, c.decode, c.lookup).Ok?;
              && (r.Ok? <==> accepted && t.kind == Refresh && t.user == user)
              && (r == Err(NotRefresh) <==> accepted && t.kind != Refresh)
              && (r == Err(WrongUser) <==> accepted && t.kind == Refresh && t.user != user)
      ensures r.Ok? ==>
                && r.value == Token(old(nextJti), Refresh, user, c.mint.Floor + 86400 * refreshTokenExpire)
                && minted == old(minted) + {r.value} && nextJti == old(nextJti) + 1
                && cache.store == if RetiredEnd(t, c) == c.store then old(cache.store)
                                  else old(cache.store)[Blacklist(t.jti) := Entry(1, RetiredEnd(t, c))]
    {
      var verdict := VerifyToken(t, c.decode, c.lookup);
      if verdict.Err? {
        return verdict;
      }
      if t.kind != Refresh {
        return Err(NotRefresh);
      }
      if t.user != user {
        return Err(WrongUser);
      }
      var remaining := Trunc(t.exp as real - c.left);
      if remaining > 0 {
        BlacklistToken(t.jti, remaining, c.store);
      }
      var successor := GenerateRefreshToken(user, c.mint);
      r := Ok(successor);
    }
  }

  /**
   After a rotation the old token is accepted again exactly when it is decoded before its expiry and
   looked up after the end of its blacklist entry; never when looked up before its last second.
   */
  lemma RetiredUntil(v: Vault, t: Token, user: string, c: Readings, decode: real, lookup: real)
    requires RotationCheck(v, t, user, c).Ok? && c.Ordered() && c.store <= lookup
    ensures Verdict(Retire(v, t, c), t, decode, lookup).Ok? <==> decode < t.exp as real && RetiredEnd(t, c) <= lookup
    ensures lookup <= t.exp as real - 1.0 ==> Verdict(Retire(v, t, c), t, decode, lookup).Err?
  {
  }

  /**
   So every replay that pauses for at most `pause` between decoding and lookup is refused exactly when
   the entry outlasts the token by that much, or the token had expired before the entry was written.
   No entry written before the expiry suffices for all pauses.
   */
  lemma ReplayRefusedExactly(v: Vault, t: Token, user: string, c: Readings, pause: real)
    requires RotationCheck(v, t, user, c).Ok? && c.Ordered() && pause >= 0.0
    ensures (forall decode, lookup | c.store <= decode <= lookup <= decode + pause ::
               Verdict(Retire(v, t, c), t, decode, lookup).Err?)
       <==> RetiredEnd(t, c) >= t.exp as real + pause || c.store >= t.exp as real
  {
    forall decode, lookup | c.store <= decode <= lookup <= decode + pause
      ensures Verdict(Retire(v, t, c), t, decode, lookup).Ok? <==> decode < t.exp as real && RetiredEnd(t, c) <= lookup
    {
      RetiredUntil(v, t, user, c, decode, lookup);
    }
    var end, exp := RetiredEnd(t, c), t.exp as real;
    if end < exp + pause && c.store < exp {
      var latest := if end - pause > c.store then end - pause else c.store;
      var decode := (latest + exp) / 2.0;
      var lookup := if end > decode then end else decode;
      RetiredUntil(v, t, user, c, decode, lookup);
      assert c.store <= decode <= lookup <= decode + pause;
    }
  }

  /** No other minted token has its identifier, and the next one to be minted will not either. */
  ghost predicate OwnId(v: Vault, t: Token) {
    t in v.minted ==> t.jti < v.nextJti && forall u | u in v.minted && u.jti == t.jti :: u == t
  }

  /**
   A token just minted, access or refresh, is accepted exactly by verifications that decode it before
   its lifetime is over, counted from the whole second in which it was minted; and minting it changes
   the verdict on no other token.
   */
  lemma FreshlyMinted(v: Vault, kind: Kind, user: string, lifetime: int, now: real, u: Token, decode: real,
                      lookup: real)
    requires Blacklist(v.nextJti) !in v.store
    ensures var t, v' := Minted(v, kind, user, lifetime, now), Mint(v, kind, user, lifetime, now);
            && t.kind == kind && t.user == user && t.exp == now.Floor + lifetime
            && (Verdict(v', t, decode, lookup).Ok? <==> decode < (now.Floor + lifetime) as real)
            && (u != t ==> Verdict(v', u, decode, lookup) == Verdict(v, u, decode, lookup))
  {
  }

  function Moment(now: real): Readings {
    Readings(now, now, now, now, now)
  }
}
