/** Session families: what login, refresh and logout do to the refresh-token
    table, each as one atomic step under a clock that never goes back
    (internal/auth/service.go, internal/auth/repository.go). */
module RefreshFamilies {
  import opened Wrappers

  /** Times and durations count nanoseconds. */
  datatype Config = Config(idleTTL: int, absoluteTTL: int, grace: int)

  datatype Token = Token(
    user: string,
    hash: string,
    family: string,
    expires: int,
    absolute: int,
    revoked: Option<int>,
    replacedBy: Option<string>)

  /** What the user lookup finds. */
  datatype UserState = Active | Inactive | Missing

  datatype Outcome = Issued(expires: int) | InvalidCredentials | TokenExpired | AccountSuspended | UserNotFound | HashTaken | Done

  /** What a step did to which family. */
  datatype Event = LoggedIn(family: string) | Rotated(family: string) | Graced(family: string) | Revoked(family: string) | Nothing

  datatype Response = Response(table: seq<Token>, outcome: Outcome, event: Event)

  // ---- the table's reads and writes

  /** The row with this hash, if any. */
  function Find(table: seq<Token>, hash: string): (i: Option<nat>)
    ensures i.Some? ==> i.value < |table| && table[i.value].hash == hash
    ensures i.None? ==> forall k :: 0 <= k < |table| ==> table[k].hash != hash
  {
    if table == [] then None
    else if table[|table| - 1].hash == hash then Some(|table| - 1)
    else Find(table[..|table| - 1], hash)
  }

  /** Revokes the rows of a family that are not revoked yet, and no others. */
  function RevokeFamily(table: seq<Token>, family: string, now: int): (after: seq<Token>)
    ensures |after| == |table|
  {
    seq(|table|, i requires 0 <= i < |table| =>
      if table[i].family == family && table[i].revoked.None? then table[i].(revoked := Some(now)) else table[i])
  }

  /** A new row: idle expiry from its creation, clamped to the family's cap. */
  function NewToken(cfg: Config, user: string, family: string, hash: string, absolute: int, created: int): (t: Token)
    ensures t.expires <= t.absolute && t.expires <= created + cfg.idleTTL
  {
    var idle := created + cfg.idleTTL;
    Token(user, hash, family, if idle > absolute then absolute else idle, absolute, None, None)
  }

  // ---- the use cases

  /** A login opens a new family whose cap is fixed here. */
  function LoginStep(cfg: Config, table: seq<Token>, user: string, family: string, hash: string, now: int, created: int): Response {
    var t := NewToken(cfg, user, family, hash, now + cfg.absoluteTTL, created);
    if Find(table, hash).Some? then Response(table, HashTaken, Nothing)
    else Response(table + [t], Issued(t.expires), LoggedIn(family))
  }

  /** A rotated row is still honoured for the grace window after its rotation. */
  predicate WithinGrace(cfg: Config, t: Token, now: int) {
    t.revoked.Some? && t.replacedBy.Some? && now - t.revoked.value <= cfg.grace
  }

  function RefreshStep(cfg: Config, table: seq<Token>, hash: string, newHash: string, now: int, created: int, user: UserState): Response {
    match Find(table, hash)
    case None => Response(table, InvalidCredentials, Nothing)
    case Some(i) =>
      var t := table[i];
      if t.revoked.Some? && !WithinGrace(cfg, t, now) then
        Response(RevokeFamily(table, t.family, now), InvalidCredentials, Revoked(t.family))
      else if now > t.expires || now > t.absolute then Response(table, TokenExpired, Nothing)
      else if user == Missing then Response(table, UserNotFound, Nothing)
      else if user == Inactive then Response(table, AccountSuspended, Nothing)
      else if Find(table, newHash).Some? then Response(table, HashTaken, Nothing)
      else
        var issued := NewToken(cfg, t.user, t.family, newHash, t.absolute, created);
        if t.revoked.Some? then Response(table + [issued], Issued(issued.expires), Graced(t.family))
        else Response(table[i := t.(revoked := Some(now), replacedBy := Some(newHash))] + [issued], Issued(issued.expires), Rotated(t.family))
  }

  /** A logout ends the session of the presented token, if it is the user's own. */
  function LogoutStep(table: seq<Token>, hash: string, user: string, now: int): Response {
    match Find(table, hash)
    case Some(i) =>
      if table[i].user == user then Response(RevokeFamily(table, table[i].family, now), Done, Revoked(table[i].family))
      else Response(table, Done, Nothing)
    case None => Response(table, Done, Nothing)
  }

  // ---- the service over its table

  class Sessions {
    var table: seq<Token>
    const cfg: Config

    constructor (cfg: Config)
      ensures table == [] && this.cfg == cfg
    {
      this.cfg := cfg;
      table := [];
    }

    method RevokeRefreshTokenFamily(family: string, now: int)
      modifies this
      ensures table == RevokeFamily(old(table), family, now)
    {
      var before := table;
      ghost var after := RevokeFamily(before, family, now);
      for i := 0 to |before|
        invariant |table| == |before|
        invariant forall j :: 0 <= j < i ==> table[j] == after[j]
        invariant forall j :: i <= j < |before| ==> table[j] == before[j]
      {
        if table[i].family == family && table[i].revoked.None? {
          table := table[i := table[i].(revoked := Some(now))];
        }
      }
    }

    method CreateRefreshToken(t: Token) returns (ok: bool)
      modifies this
      ensures ok <==> Find(old(table), t.hash).None?
      ensures table == if ok then old(table) + [t] else old(table)
    {
      ok := Find(table, t.hash).None?;
      if ok {
        table := table + [t];
      }
    }

    method IssueSession(user: string, family: string, hash: string, now: int, created: int) returns (outcome: Outcome, ghost event: Event)
      modifies this
      ensures Response(table, outcome, event) == LoginStep(cfg, old(table), user, family, hash, now, created)
    {
      var record := NewToken(cfg, user, family, hash, now + cfg.absoluteTTL, created);
      var ok := CreateRefreshToken(record);
      outcome := if ok then Issued(record.expires) else HashTaken;
      event := if ok then LoggedIn(family) else Nothing;
    }

    /** The reuse of a dead token revokes its family and commits; every other
        refusal leaves the table as it was. */
    method RefreshAccessToken(hash: string, newHash: string, now: int, created: int, user: UserState)
      returns (outcome: Outcome, ghost event: Event)
      modifies this
      ensures Response(table, outcome, event) == RefreshStep(cfg, old(table), hash, newHash, now, created, user)
    {
      event := Nothing;
      var found := Find(table, hash);
      if found.None? {
        return InvalidCredentials, event;
      }
      var i := found.value;
      var existing := table[i];
      var withinGrace := false;
      if existing.revoked.Some? {
        withinGrace := existing.replacedBy.Some? && now - existing.revoked.value <= cfg.grace;
        if !withinGrace {
          RevokeRefreshTokenFamily(existing.family, now);
          return InvalidCredentials, Revoked(existing.family);
        }
      }
      if now > existing.expires || now > existing.absolute {
        return TokenExpired, event;
      }
      match user {
        case Missing => return UserNotFound, event;
        case Inactive => return AccountSuspended, event;
        case Active =>
      }
      var record := NewToken(cfg, existing.user, existing.family, newHash, existing.absolute, created);
      var ok := CreateRefreshToken(record);
      if !ok {
        return HashTaken, event;
      }
      if !withinGrace {
        table := table[i := existing.(revoked := Some(now), replacedBy := Some(record.hash))];
      }
      outcome := Issued(record.expires);
      event := if withinGrace then Graced(existing.family) else Rotated(existing.family);
    }

    method Logout(hash: string, user: string, now: int) returns (ghost event: Event)
      modifies this
      ensures Response(table, Done, event) == LogoutStep(old(table), hash, user, now)
    {
      event := Nothing;
      var found := Find(table, hash);
      if found.Some? && table[found.value].user == user {
        event := Revoked(table[found.value].family);
        RevokeRefreshTokenFamily(table[found.value].family, now);
      }
    }
  }
}
