/**
 AuthService: issuing, redeeming, revoking and purging refresh tokens under a clock.

 Every @Transactional method is one step of `Step`, at one instant of the clock; the class
 AuthService performs the steps in place.  A refresh token that the service signed is represented
 by the jti in it, and `signed` keeps the expiry in it: verification compares that with the clock,
 in whole seconds, before any row is looked up.  New jtis are inputs, and `FreshIds` is the
 assumption about uuid v4.
 */
module RefreshTokens {
  import opened Wrappers

  type Jti = string

  datatype User = User(hasPassword: bool, isActive: bool, isBanned: bool,
                       lastLoginAt: Option<int>, lastActiveAt: Option<int>)

  datatype Token = Token(userId: nat, expiresAt: int, isRevoked: bool, revokedAt: Option<int>)

  /**
   ttl is jwtConfig.refreshExpiresInMs; now is the clock, in milliseconds; tokens is the table;
   signed gives the exp claim, in seconds, of every refresh token that is out with a client.
   */
  datatype State = State(ttl: nat, now: int, users: map<nat, User>, tokens: map<Jti, Token>, signed: map<Jti, int>)

  /**
   The string a client presents: not a valid signature of the service, a valid and unexpired
   signature without a jti (an access token), or a refresh token of the service.
   */
  datatype Credential = Unverifiable | WithoutJti | Signed(jti: Jti)

  datatype Op =
    | Advance(ms: nat)
    | Administer(userId: nat, isActive: bool, isBanned: bool)
    | Register(newId: nat, newJti: Jti, roleExists: bool, mailSent: bool)
    | Login(userId: nat, passwordMatches: bool, newJti: Jti)
    | Refresh(cred: Credential, newJti: Jti)
    | Logout(cred: Credential)
    | Cleanup

  /** TokenError is the error of the JWT library itself, RoleNotFound and MailError those of a registration. */
  datatype Outcome =
    | Quiet | Issued(jti: Jti, userId: nat) | Unauthorized | Conflict | LoggedOut
    | TokenError | RoleNotFound | MailError

  // ---------------------------------------------------------------- one step

  function Seconds(ms: int): int { ms / 1000 }

  /** The exp claim of a token signed at that time for that lifetime. */
  function Exp(now: int, ttl: nat): int { Seconds(now) + Seconds(ttl) }

  function Issue(s: State, userId: nat, jti: Jti): State {
    s.(tokens := s.tokens[jti := Token(userId, s.now + s.ttl, false, None)],
       signed := s.signed[jti := Exp(s.now, s.ttl)])
  }

  /** verifyAsync accepts the string: its signature is valid and its exp is still ahead. */
  predicate Verifies(s: State, cred: Credential) {
    match cred
    case Unverifiable => false
    case WithoutJti => true
    case Signed(jti) => jti in s.signed && Seconds(s.now) < s.signed[jti]
  }

  function Revoke(s: State, jti: Jti): State
    requires jti in s.tokens
  {
    s.(tokens := s.tokens[jti := s.tokens[jti].(isRevoked := true, revokedAt := Some(s.now))])
  }

  predicate MayAct(s: State, userId: nat) {
    userId in s.users && s.users[userId].isActive && !s.users[userId].isBanned
  }

  function DoLogin(s: State, userId: nat, passwordMatches: bool, jti: Jti): (State, Outcome) {
    if !MayAct(s, userId) || !s.users[userId].hasPassword || !passwordMatches then (s, Unauthorized) else
    var user := s.users[userId].(lastLoginAt := Some(s.now), lastActiveAt := Some(s.now));
    (Issue(s.(users := s.users[userId := user]), userId, jti), Issued(jti, userId))
  }

  function DoRefresh(s: State, cred: Credential, jti: Jti): (State, Outcome) {
    if !Verifies(s, cred) || !cred.Signed? || cred.jti !in s.tokens then (s, Unauthorized) else
    var token := s.tokens[cred.jti];
    if token.isRevoked || s.now > token.expiresAt || !MayAct(s, token.userId) then (s, Unauthorized) else
    var user := s.users[token.userId].(lastActiveAt := Some(s.now));
    (Issue(Revoke(s, cred.jti).(users := s.users[token.userId := user]), token.userId, jti),
     Issued(jti, token.userId))
  }

  function DoLogout(s: State, cred: Credential): (State, Outcome) {
    if !Verifies(s, cred) then (s, TokenError)
    else if !cred.Signed? then (s, Quiet)
    else if cred.jti !in s.tokens || s.tokens[cred.jti].isRevoked then (s, Unauthorized)
    else (Revoke(s, cred.jti), LoggedOut)
  }

  /** A user stands for the email and username that lead to it; a failing mail rolls the transaction back. */
  function DoRegister(s: State, newId: nat, jti: Jti, roleExists: bool, mailSent: bool): (State, Outcome) {
    if newId in s.users then (s, Conflict)
    else if !roleExists then (s, RoleNotFound)
    else if !mailSent then (s, MailError)
    else (Issue(s.(users := s.users[newId := User(true, true, false, None, None)]), newId, jti), Issued(jti, newId))
  }

  function Purge(s: State): State {
    s.(tokens := map jti | jti in s.tokens && !(s.tokens[jti].expiresAt < s.now || s.tokens[jti].isRevoked)
                   :: s.tokens[jti])
  }

  function Step(s: State, op: Op): (State, Outcome) {
    match op
    case Advance(ms) => (s.(now := s.now + ms), Quiet)
    case Administer(userId, isActive, isBanned) =>
      (if userId in s.users
       then s.(users := s.users[userId := s.users[userId].(isActive := isActive, isBanned := isBanned)])
       else s, Quiet)
    case Register(newId, jti, roleExists, mailSent) => DoRegister(s, newId, jti, roleExists, mailSent)
    case Login(userId, passwordMatches, jti) => DoLogin(s, userId, passwordMatches, jti)
    case Refresh(cred, jti) => DoRefresh(s, cred, jti)
    case Logout(cred) => DoLogout(s, cred)
    case Cleanup => (Purge(s), Quiet)
  }

  // ---------------------------------------------------------------- runs

  function After(s0: State, ops: seq<Op>, k: nat): State
    requires k <= |ops|
  {
    if k == 0 then s0 else Step(After(s0, ops, k - 1), ops[k - 1]).0
  }

  function OutcomeAt(s0: State, ops: seq<Op>, k: nat): Outcome
    requires k < |ops|
  {
    Step(After(s0, ops, k), ops[k]).1
  }

  /** No two requests are given the same uuid. */
  predicate FreshIds(ops: seq<Op>) {
    forall i, j | 0 <= i < j < |ops| ::
      (ops[i].Register? || ops[i].Login? || ops[i].Refresh?) && (ops[j].Register? || ops[j].Login? || ops[j].Refresh?)
      ==> ops[i].newJti != ops[j].newJti
  }

  predicate IsRun(s0: State, ops: seq<Op>) {
    s0.tokens == map[] && s0.signed == map[] && FreshIds(ops)
  }

  predicate IssuedAt(s0: State, ops: seq<Op>, i: nat, jti: Jti) {
    i < |ops| && OutcomeAt(s0, ops, i).Issued? && OutcomeAt(s0, ops, i).jti == jti
  }

  /** This call spends the token: exchanges it for a successor, or logs it out. */
  predicate Redeems(op: Op, out: Outcome, jti: Jti) {
    && ((op.Refresh? && out.Issued?) || (op.Logout? && out == LoggedOut))
    && op.cred == Signed(jti)
  }

  predicate RedeemedAt(s0: State, ops: seq<Op>, i: nat, jti: Jti) {
    i < |ops| && Redeems(ops[i], OutcomeAt(s0, ops, i), jti)
  }

  predicate RedeemedBetween(s0: State, ops: seq<Op>, i: nat, k: nat, jti: Jti) {
    exists r: nat :: i < r < k && RedeemedAt(s0, ops, r, jti)
  }

  lemma {:induction false} RowsWereIssued(s0: State, ops: seq<Op>, k: nat, jti: Jti)
    requires IsRun(s0, ops) && k <= |ops| && jti in After(s0, ops, k).tokens
    ensures exists i: nat :: i < k && IssuedAt(s0, ops, i, jti)
  {
    if jti in After(s0, ops, k - 1).tokens {
      RowsWereIssued(s0, ops, k - 1, jti);
    } else {
      assert IssuedAt(s0, ops, k - 1, jti);
    }
  }

  lemma {:induction false} SignedWereIssued(s0: State, ops: seq<Op>, k: nat, jti: Jti)
    requires IsRun(s0, ops) && k <= |ops| && jti in After(s0, ops, k).signed
    ensures exists i: nat :: i < k && IssuedAt(s0, ops, i, jti)
  {
    if jti in After(s0, ops, k - 1).signed {
      SignedWereIssued(s0, ops, k - 1, jti);
    } else {
      assert IssuedAt(s0, ops, k - 1, jti);
    }
  }

  /** What the table knows, and has forgotten, about a token issued at step i, and what the token says itself. */
  predicate RowTellsHistory(s0: State, ops: seq<Op>, i: nat, k: nat, jti: Jti)
    requires i < k <= |ops| && IssuedAt(s0, ops, i, jti)
  {
    var s := After(s0, ops, k);
    var dueAt := After(s0, ops, i).now + s0.ttl;
    jti in s.signed && s.signed[jti] == Exp(After(s0, ops, i).now, s0.ttl)
    && if jti in s.tokens then
      && s.tokens[jti].userId == OutcomeAt(s0, ops, i).userId
      && s.tokens[jti].expiresAt == dueAt
      && (s.tokens[jti].isRevoked <==> RedeemedBetween(s0, ops, i, k, jti))
      && (if s.tokens[jti].isRevoked
          then exists r: nat :: i < r < k && RedeemedAt(s0, ops, r, jti)
                                && s.tokens[jti].revokedAt == Some(After(s0, ops, r).now)
          else s.tokens[jti].revokedAt == None)
    else
      RedeemedBetween(s0, ops, i, k, jti) || s.now > dueAt
  }

  lemma {:induction false} TtlIsFixed(s0: State, ops: seq<Op>, k: nat)
    requires k <= |ops|
    ensures After(s0, ops, k).ttl == s0.ttl
  {
    if k > 0 {
      TtlIsFixed(s0, ops, k - 1);
    }
  }

  lemma RedeemedExtends(s0: State, ops: seq<Op>, i: nat, k: nat, jti: Jti)
    requires i < k
    ensures RedeemedBetween(s0, ops, i, k + 1, jti)
      <==> RedeemedBetween(s0, ops, i, k, jti) || RedeemedAt(s0, ops, k, jti)
  {
    if RedeemedAt(s0, ops, k, jti) {
      assert i < k < k + 1;
    }
  }

  lemma StepOnRow(s: State, op: Op, jti: Jti)
    requires !(Step(s, op).1.Issued? && Step(s, op).1.jti == jti)
    ensures var (t, out) := Step(s, op);
            && t.now >= s.now
            && (jti in s.signed ==> jti in t.signed && t.signed[jti] == s.signed[jti])
            && (Redeems(op, out, jti) ==> jti in s.tokens && !s.tokens[jti].isRevoked)
            && (jti in t.tokens ==> (
                  && jti in s.tokens
                  && t.tokens[jti].userId == s.tokens[jti].userId
                  && t.tokens[jti].expiresAt == s.tokens[jti].expiresAt
                  && (t.tokens[jti].isRevoked <==> s.tokens[jti].isRevoked || Redeems(op, out, jti))
                  && t.tokens[jti].revokedAt == if Redeems(op, out, jti) then Some(s.now) else s.tokens[jti].revokedAt))
            && (jti in s.tokens && jti !in t.tokens ==>
                  s.tokens[jti].isRevoked || t.now > s.tokens[jti].expiresAt)
  {}

  lemma IssuedOnce(s0: State, ops: seq<Op>, i: nat, j: nat, jti: Jti)
    requires FreshIds(ops) && IssuedAt(s0, ops, i, jti) && IssuedAt(s0, ops, j, jti)
    ensures i == j
  {}

  lemma FirstRow(s: State, op: Op)
    requires Step(s, op).1.Issued?
    ensures var (t, out) := Step(s, op);
            && out.jti in t.tokens && t.tokens[out.jti] == Token(out.userId, s.now + s.ttl, false, None)
            && out.jti in t.signed && t.signed[out.jti] == Exp(s.now, s.ttl)
  {}

  lemma {:induction false} RowHistory(s0: State, ops: seq<Op>, i: nat, k: nat, jti: Jti)
    requires IsRun(s0, ops) && i < k <= |ops| && IssuedAt(s0, ops, i, jti)
    ensures RowTellsHistory(s0, ops, i, k, jti)
  {
    hide Step;
    if k == i + 1 {
      TtlIsFixed(s0, ops, i);
      FirstRow(After(s0, ops, i), ops[i]);
    } else {
      RowHistory(s0, ops, i, k - 1, jti);
      RedeemedExtends(s0, ops, i, k - 1, jti);
      if IssuedAt(s0, ops, k - 1, jti) {
        IssuedOnce(s0, ops, i, k - 1, jti);
      }
      StepOnRow(After(s0, ops, k - 1), ops[k - 1], jti);
      assert RedeemedAt(s0, ops, k - 1, jti)
        <==> Redeems(ops[k - 1], Step(After(s0, ops, k - 1), ops[k - 1]).1, jti);
    }
  }

  /** The exp claim of a token comes no later than the due time of its row, and at most two seconds before. */
  lemma ExpBeforeDue(now: int, ttl: nat)
    ensures Exp(now, ttl) * 1000 <= now + ttl < Exp(now, ttl) * 1000 + 2000
  {}

  /** At step j the clock has not reached the second in which the token issued at step i expires. */
  predicate Unexpired(s0: State, ops: seq<Op>, i: nat, j: nat)
    requires i <= |ops| && j <= |ops|
  {
    Seconds(After(s0, ops, j).now) < Seconds(After(s0, ops, i).now) + Seconds(s0.ttl)
  }

  /** A refresh or logout that verifies carries a token that the run issued and that has not expired; no other does. */
  lemma VerifiesIff(s0: State, ops: seq<Op>, j: nat, jti: Jti)
    requires IsRun(s0, ops) && j <= |ops|
    ensures Verifies(After(s0, ops, j), Signed(jti))
      <==> exists i: nat :: i < j && IssuedAt(s0, ops, i, jti) && Unexpired(s0, ops, i, j)
  {
    hide Step;
    if jti in After(s0, ops, j).signed {
      SignedWereIssued(s0, ops, j, jti);
    }
    forall i: nat | i < j && IssuedAt(s0, ops, i, jti) ensures RowTellsHistory(s0, ops, i, j, jti) {
      RowHistory(s0, ops, i, j, jti);
    }
  }

  /**
   As long as a token has not expired, its row is there unless it was redeemed, and is not past its due
   time: the expiry test on the row never decides, and no cleanup takes the row of a live token.
   */
  lemma LiveTokenHasItsRow(s0: State, ops: seq<Op>, i: nat, j: nat, jti: Jti)
    requires IsRun(s0, ops) && i < j <= |ops| && IssuedAt(s0, ops, i, jti)
    ensures var s := After(s0, ops, j);
            && (Verifies(s, Signed(jti)) <==> Unexpired(s0, ops, i, j))
            && (Unexpired(s0, ops, i, j) ==> (
                  && (jti in s.tokens && !s.tokens[jti].isRevoked <==> !RedeemedBetween(s0, ops, i, j, jti))
                  && (jti in s.tokens ==>
                        s.now <= s.tokens[jti].expiresAt && s.tokens[jti].userId == OutcomeAt(s0, ops, i).userId)))
  {
    hide Step, OutcomeAt;
    RowHistory(s0, ops, i, j, jti);
    ExpBeforeDue(After(s0, ops, i).now, s0.ttl);
  }

  /**
   Main result: a refresh at step j succeeds exactly when its token was issued earlier in the run, was
   not redeemed since, has not expired, and its user may act; cleanups, anywhere in the run, make no
   difference.  Every other refresh has the one error outcome.
   */
  lemma RefreshSucceedsIff(s0: State, ops: seq<Op>, j: nat, jti: Jti)
    requires IsRun(s0, ops) && j < |ops| && ops[j].Refresh? && ops[j].cred == Signed(jti)
    ensures OutcomeAt(s0, ops, j).Issued? <==>
      exists i: nat :: i < j && IssuedAt(s0, ops, i, jti) && !RedeemedBetween(s0, ops, i, j, jti)
        && Unexpired(s0, ops, i, j)
        && var u, s := OutcomeAt(s0, ops, i).userId, After(s0, ops, j);
           u in s.users && s.users[u].isActive && !s.users[u].isBanned
    ensures OutcomeAt(s0, ops, j).Issued? ==>
      exists i: nat :: i < j && IssuedAt(s0, ops, i, jti)
        && OutcomeAt(s0, ops, j) == Issued(ops[j].newJti, OutcomeAt(s0, ops, i).userId)
    ensures !OutcomeAt(s0, ops, j).Issued? ==>
      OutcomeAt(s0, ops, j) == Unauthorized && After(s0, ops, j + 1) == After(s0, ops, j)
  {
    var s := After(s0, ops, j);
    RefreshChecks(s, jti, ops[j].newJti);
    VerifiesIff(s0, ops, j, jti);
    hide Step, Unexpired, RedeemedBetween, Verifies, IssuedAt;
    forall i: nat | i < j && IssuedAt(s0, ops, i, jti)
      ensures Verifies(s, Signed(jti)) <==> Unexpired(s0, ops, i, j)
      ensures Unexpired(s0, ops, i, j) ==>
                (jti in s.tokens && !s.tokens[jti].isRevoked <==> !RedeemedBetween(s0, ops, i, j, jti))
                && (jti in s.tokens ==>
                      s.now <= s.tokens[jti].expiresAt && s.tokens[jti].userId == OutcomeAt(s0, ops, i).userId)
    {
      LiveTokenHasItsRow(s0, ops, i, j, jti);
    }
  }

  /** What a refresh asks of the tables. */
  lemma RefreshChecks(s: State, jti: Jti, newJti: Jti)
    ensures var (t, out) := Step(s, Refresh(Signed(jti), newJti));
            && (out.Issued? <==> Verifies(s, Signed(jti)) && jti in s.tokens && !s.tokens[jti].isRevoked
                                 && s.now <= s.tokens[jti].expiresAt && MayAct(s, s.tokens[jti].userId))
            && (out.Issued? ==> out == Issued(newJti, s.tokens[jti].userId))
            && (!out.Issued? ==> out == Unauthorized && t == s)
  {}

  /**
   The same for logout, which asks nothing of the user.  Of its two errors it gives the JWT library's own
   exactly when the token was never issued or has expired, and Unauthorized exactly when it was redeemed.
   */
  lemma LogoutSucceedsIff(s0: State, ops: seq<Op>, j: nat, jti: Jti)
    requires IsRun(s0, ops) && j < |ops| && ops[j] == Logout(Signed(jti))
    ensures match OutcomeAt(s0, ops, j)
            case LoggedOut => exists i: nat :: i < j && IssuedAt(s0, ops, i, jti) && Unexpired(s0, ops, i, j)
                                && !RedeemedBetween(s0, ops, i, j, jti)
            case Unauthorized => exists i: nat :: i < j && IssuedAt(s0, ops, i, jti) && Unexpired(s0, ops, i, j)
                                   && RedeemedBetween(s0, ops, i, j, jti)
            case TokenError => forall i: nat | i < j && IssuedAt(s0, ops, i, jti) :: !Unexpired(s0, ops, i, j)
            case _ => false
    ensures OutcomeAt(s0, ops, j) != LoggedOut ==> After(s0, ops, j + 1) == After(s0, ops, j)
  {
    VerifiesIff(s0, ops, j, jti);
    if i: nat :| i < j && IssuedAt(s0, ops, i, jti) && Unexpired(s0, ops, i, j) {
      LiveTokenHasItsRow(s0, ops, i, j, jti);
    }
    forall i: nat | i < j && IssuedAt(s0, ops, i, jti) ensures Verifies(After(s0, ops, j), Signed(jti))
      <==> Unexpired(s0, ops, i, j) {
      LiveTokenHasItsRow(s0, ops, i, j, jti);
    }
  }

  /** Other strings: one that is no signature of the service never verifies; an access token cannot be spent. */
  lemma OtherStrings(s: State, newJti: Jti)
    ensures Step(s, Refresh(Unverifiable, newJti)) == Step(s, Refresh(WithoutJti, newJti)) == (s, Unauthorized)
    ensures Step(s, Logout(Unverifiable)) == (s, TokenError) && Step(s, Logout(WithoutJti)) == (s, Quiet)
  {}

  /** Time passes between the calls, and in none of them. */
  lemma ClockMoves(s: State, op: Op)
    ensures Step(s, op).0.now == s.now + (if op.Advance? then op.ms else 0) && Step(s, op).0.ttl == s.ttl
  {}

  /** A token is redeemed at most once, refresh and logout counted together, purged or not. */
  lemma RedeemedAtMostOnce(s0: State, ops: seq<Op>, a: nat, b: nat, jti: Jti)
    requires IsRun(s0, ops) && a < b && RedeemedAt(s0, ops, a, jti)
    ensures !RedeemedAt(s0, ops, b, jti)
  {
    hide DoRegister, DoLogin, Purge, FreshIds;
    if RedeemedAt(s0, ops, b, jti) {
      RowsWereIssued(s0, ops, a, jti);
      var i: nat :| i < a && IssuedAt(s0, ops, i, jti);
      RowHistory(s0, ops, i, b, jti);
    }
  }

  // ---------------------------------------------------------------- families

  /** For every token issued in the first k steps, the token of the login or registration it descends from. */
  function Families(s0: State, ops: seq<Op>, k: nat): map<Jti, Jti>
    requires k <= |ops|
  {
    if k == 0 then map[] else
    var f := Families(s0, ops, k - 1);
    var out := OutcomeAt(s0, ops, k - 1);
    if !out.Issued? then f
    else if ops[k - 1].Refresh? && ops[k - 1].cred.Signed? && ops[k - 1].cred.jti in f
    then f[out.jti := f[ops[k - 1].cred.jti]]
    else f[out.jti := out.jti]
  }

  lemma {:induction false} FamiliesCoverIssues(s0: State, ops: seq<Op>, k: nat, jti: Jti)
    requires k <= |ops|
    ensures jti in Families(s0, ops, k) ==> exists i: nat :: i < k && IssuedAt(s0, ops, i, jti)
    ensures jti in Families(s0, ops, k) ==>
      exists i: nat :: i < k && IssuedAt(s0, ops, i, Families(s0, ops, k)[jti])
  {
    if k > 0 && jti in Families(s0, ops, k) {
      assert OutcomeAt(s0, ops, k - 1).Issued? ==> IssuedAt(s0, ops, k - 1, OutcomeAt(s0, ops, k - 1).jti);
      if jti in Families(s0, ops, k - 1) {
        FamiliesCoverIssues(s0, ops, k - 1, jti);
      }
      if ops[k - 1].Refresh? && ops[k - 1].cred.Signed? && ops[k - 1].cred.jti in Families(s0, ops, k - 1) {
        FamiliesCoverIssues(s0, ops, k - 1, ops[k - 1].cred.jti);
      }
    }
  }

  predicate OneLivePerFamily(s: State, f: map<Jti, Jti>) {
    && (forall a :: a in s.tokens ==> a in f)
    && (forall a, b | a in s.tokens && b in s.tokens && !s.tokens[a].isRevoked && !s.tokens[b].isRevoked ::
          a in f && b in f && f[a] == f[b] ==> a == b)
  }

  /** Rows only disappear or become revoked, except the one issued. */
  lemma StepOnRows(s: State, op: Op)
    ensures var (t, out) := Step(s, op);
            forall a :: a in t.tokens && !(out.Issued? && a == out.jti) ==>
              a in s.tokens && (s.tokens[a].isRevoked ==> t.tokens[a].isRevoked)
    ensures var (t, out) := Step(s, op);
            op.Refresh? && out.Issued? ==>
              && op.cred.Signed? && op.cred.jti in s.tokens && !s.tokens[op.cred.jti].isRevoked
              && (op.cred.jti in t.tokens && op.cred.jti != out.jti ==> t.tokens[op.cred.jti].isRevoked)
  {}

  lemma StepKeepsOneLive(s: State, f: map<Jti, Jti>, op: Op, g: map<Jti, Jti>)
    requires OneLivePerFamily(s, f)
    requires var out := Step(s, op).1;
             g == if !out.Issued? then f
                  else if op.Refresh? && op.cred.Signed? && op.cred.jti in f then f[out.jti := f[op.cred.jti]]
                  else f[out.jti := out.jti]
    requires var out := Step(s, op).1; out.Issued? ==> forall a :: a in f ==> a != out.jti && f[a] != out.jti
    ensures OneLivePerFamily(Step(s, op).0, g)
  {
    StepOnRows(s, op);
    hide Step;
  }

  /** Among the tokens that descend from one login at most one is unrevoked, at every point of every run. */
  lemma {:induction false} FamiliesHaveOneLiveToken(s0: State, ops: seq<Op>, k: nat)
    requires IsRun(s0, ops) && k <= |ops|
    ensures OneLivePerFamily(After(s0, ops, k), Families(s0, ops, k))
  {
    hide Step;
    if k > 0 {
      FamiliesHaveOneLiveToken(s0, ops, k - 1);
      var f := Families(s0, ops, k - 1);
      var out := OutcomeAt(s0, ops, k - 1);
      if out.Issued? {
        assert IssuedAt(s0, ops, k - 1, out.jti);
        forall a | a in f ensures a != out.jti && f[a] != out.jti {
          FamiliesCoverIssues(s0, ops, k - 1, a);
          if i: nat :| i < k - 1 && IssuedAt(s0, ops, i, out.jti) {
            IssuedOnce(s0, ops, i, k - 1, out.jti);
          }
        }
      }
      StepKeepsOneLive(After(s0, ops, k - 1), f, ops[k - 1], Families(s0, ops, k));
    }
  }

  // ---------------------------------------------------------------- who is handed a token

  /**
   A login hands out a token exactly to a user who exists, is active and not banned, has a password and
   gave it; a registration exactly when the user is new, the role is there and the mail went out.  Both
   refuse without a trace.
   */
  lemma LoginSucceedsIff(s: State, op: Op)
    requires op.Login? || op.Register?
    ensures var (t, out) := Step(s, op);
            && (op.Login? ==>
                  (out == Issued(op.newJti, op.userId)
                   <==> op.userId in s.users && s.users[op.userId].isActive && !s.users[op.userId].isBanned
                        && s.users[op.userId].hasPassword && op.passwordMatches)
                  && (out == Issued(op.newJti, op.userId) || (out == Unauthorized && t == s)))
            && (op.Register? ==>
                  (out == Issued(op.newJti, op.newId) <==> op.newId !in s.users && op.roleExists && op.mailSent)
                  && (out == Conflict <==> op.newId in s.users)
                  && (out == RoleNotFound <==> op.newId !in s.users && !op.roleExists)
                  && (out == Issued(op.newJti, op.newId)
                      || ((out == Conflict || out == RoleNotFound || out == MailError) && t == s)))
  {}

  /** Step i registers the user, or logs the user in with the right password, who may act. */
  predicate OpensFamily(s0: State, ops: seq<Op>, i: nat, userId: nat)
    requires i < |ops|
  {
    var s := After(s0, ops, i);
    match ops[i]
    case Register(newId, _, roleExists, mailSent) => newId == userId && newId !in s.users && roleExists && mailSent
    case Login(u, passwordMatches, _) =>
      u == userId && passwordMatches && u in s.users
      && s.users[u].hasPassword && s.users[u].isActive && !s.users[u].isBanned
    case _ => false
  }

  /** Issued at step j, the token descends from one issued at step i, for the same user, who opened the family. */
  predicate Descends(s0: State, ops: seq<Op>, i: nat, j: nat, root: Jti, jti: Jti) {
    && i <= j < |ops| && IssuedAt(s0, ops, i, root) && IssuedAt(s0, ops, j, jti)
    && OutcomeAt(s0, ops, i).userId == OutcomeAt(s0, ops, j).userId
    && OpensFamily(s0, ops, i, OutcomeAt(s0, ops, i).userId)
  }

  lemma {:induction false} IssuedHaveFamilies(s0: State, ops: seq<Op>, i: nat, k: nat, jti: Jti)
    requires i < k <= |ops| && IssuedAt(s0, ops, i, jti)
    ensures jti in Families(s0, ops, k)
  {
    hide Step;
    if i < k - 1 {
      IssuedHaveFamilies(s0, ops, i, k - 1, jti);
    }
  }

  lemma RefreshKeepsUser(s0: State, ops: seq<Op>, j: nat, k: nat)
    requires IsRun(s0, ops) && j < k < |ops| && ops[k].Refresh? && OutcomeAt(s0, ops, k).Issued?
    requires ops[k].cred.Signed? && IssuedAt(s0, ops, j, ops[k].cred.jti)
    ensures OutcomeAt(s0, ops, k).userId == OutcomeAt(s0, ops, j).userId
  {
    RowHistory(s0, ops, j, k, ops[k].cred.jti);
    hide FreshIds, DoLogin, DoLogout, DoRegister, Purge;
  }

  /**
   Every token of every run descends, refresh by refresh and always for the same user, from a registration
   of that user or from a login with the password.
   */
  lemma {:induction false} TokensDescend(s0: State, ops: seq<Op>, k: nat, jti: Jti)
    requires IsRun(s0, ops) && k <= |ops| && jti in Families(s0, ops, k)
    ensures exists i: nat, j: nat :: j < k && Descends(s0, ops, i, j, Families(s0, ops, k)[jti], jti)
  {
    hide Step, RowTellsHistory;
    var out := OutcomeAt(s0, ops, k - 1);
    if out.Issued? && out.jti == jti {
      assert IssuedAt(s0, ops, k - 1, jti);
      if ops[k - 1].Refresh? {
        var spent := OldTokenOf(s0, ops, k - 1);
        TokensDescend(s0, ops, k - 1, spent);
        var i: nat, j: nat :| j < k - 1 && Descends(s0, ops, i, j, Families(s0, ops, k - 1)[spent], spent);
        RefreshKeepsUser(s0, ops, j, k - 1);
        assert Descends(s0, ops, i, k - 1, Families(s0, ops, k)[jti], jti);
      } else {
        Opens(s0, ops, k - 1);
        assert Descends(s0, ops, k - 1, k - 1, jti, jti);
      }
    } else {
      TokensDescend(s0, ops, k - 1, jti);
    }
  }

  lemma Opens(s0: State, ops: seq<Op>, i: nat)
    requires i < |ops| && OutcomeAt(s0, ops, i).Issued? && !ops[i].Refresh?
    ensures OpensFamily(s0, ops, i, OutcomeAt(s0, ops, i).userId)
  {
    var s := After(s0, ops, i);
    if ops[i].Login? || ops[i].Register? {
      LoginSucceedsIff(s, ops[i]);
      hide DoLogin, DoRegister;
    }
  }

  lemma OldTokenOf(s0: State, ops: seq<Op>, k: nat) returns (jti: Jti)
    requires IsRun(s0, ops) && k < |ops| && ops[k].Refresh? && OutcomeAt(s0, ops, k).Issued?
    ensures ops[k].cred == Signed(jti) && jti in Families(s0, ops, k)
  {
    StepOnRows(After(s0, ops, k), ops[k]);
    hide Step;
    jti := ops[k].cred.jti;
    RowsWereIssued(s0, ops, k, jti);
    var i: nat :| i < k && IssuedAt(s0, ops, i, jti);
    IssuedHaveFamilies(s0, ops, i, k, jti);
  }

  // ---------------------------------------------------------------- what the users table knows

  /** The step signs the user in: a login or a refresh. */
  predicate SignsIn(op: Op, out: Outcome, userId: nat) {
    (op.Login? || op.Refresh?) && out.Issued? && out.userId == userId
  }

  /** One step on one user: only these steps touch the user, and only these columns. */
  lemma StepOnUser(s: State, op: Op, u: nat)
    ensures var (t, out) := Step(s, op);
            && (u in t.users <==> u in s.users || (op.Register? && op.newId == u && out.Issued?))
            && (u in s.users ==> t.users[u] == User(
                  s.users[u].hasPassword,
                  if op.Administer? && op.userId == u then op.isActive else s.users[u].isActive,
                  if op.Administer? && op.userId == u then op.isBanned else s.users[u].isBanned,
                  if SignsIn(op, out, u) && op.Login? then Some(s.now) else s.users[u].lastLoginAt,
                  if SignsIn(op, out, u) then Some(s.now) else s.users[u].lastActiveAt))
            && (u !in s.users && u in t.users ==> t.users[u] == User(true, true, false, None, None))
  {}

  /** Step i signs the user in, by a login where only those are asked for. */
  predicate SignsInAt(s0: State, ops: seq<Op>, i: nat, userId: nat, byLogin: bool) {
    i < |ops| && SignsIn(ops[i], OutcomeAt(s0, ops, i), userId) && (byLogin ==> ops[i].Login?)
  }

  predicate LastSignInAt(s0: State, ops: seq<Op>, i: nat, k: nat, userId: nat, byLogin: bool) {
    && i < k && SignsInAt(s0, ops, i, userId, byLogin)
    && forall j: nat | i < j < k :: !SignsInAt(s0, ops, j, userId, byLogin)
  }

  /**
   The time of last activity is the clock of the user's last login or refresh, the time of last login that of
   the last login; a user whom the run registered has neither before the first one.
   */
  lemma {:induction false} StampsTellHistory(s0: State, ops: seq<Op>, k: nat, u: nat, byLogin: bool)
    requires k <= |ops| && u !in s0.users && u in After(s0, ops, k).users
    ensures var user := After(s0, ops, k).users[u];
            match if byLogin then user.lastLoginAt else user.lastActiveAt
            case None => forall i: nat | i < k :: !SignsInAt(s0, ops, i, u, byLogin)
            case Some(at) => exists i: nat :: LastSignInAt(s0, ops, i, k, u, byLogin) && at == After(s0, ops, i).now
  {
    hide Step;
    var s := After(s0, ops, k - 1);
    StepOnUser(s, ops[k - 1], u);
    assert SignsInAt(s0, ops, k - 1, u, byLogin)
      <==> SignsIn(ops[k - 1], Step(s, ops[k - 1]).1, u) && (byLogin ==> ops[k - 1].Login?);
    hide SignsIn;
    if u in s.users {
      StampsTellHistory(s0, ops, k - 1, u, byLogin);
      if SignsInAt(s0, ops, k - 1, u, byLogin) {
        assert LastSignInAt(s0, ops, k - 1, k, u, byLogin);
      } else {
        var was := if byLogin then s.users[u].lastLoginAt else s.users[u].lastActiveAt;
        if was.Some? {
          var i: nat :| LastSignInAt(s0, ops, i, k - 1, u, byLogin) && was.value == After(s0, ops, i).now;
          assert LastSignInAt(s0, ops, i, k, u, byLogin);
        }
      }
    } else {
      UnknownNeverSignsIn(s0, ops, k - 1, u, byLogin);
      SignsInKnown(s, ops[k - 1], u);
    }
  }

  lemma {:induction false} UnknownNeverSignsIn(s0: State, ops: seq<Op>, k: nat, u: nat, byLogin: bool)
    requires k <= |ops| && u !in After(s0, ops, k).users
    ensures forall i: nat | i < k :: !SignsInAt(s0, ops, i, u, byLogin)
  {
    if k > 0 {
      var s := After(s0, ops, k - 1);
      StepOnUser(s, ops[k - 1], u);
      SignsInKnown(s, ops[k - 1], u);
      hide Step, SignsIn;
      UnknownNeverSignsIn(s0, ops, k - 1, u, byLogin);
    }
  }

  lemma SignsInKnown(s: State, op: Op, u: nat)
    ensures SignsIn(op, Step(s, op).1, u) ==> u in s.users
  {}

  // ---------------------------------------------------------------- the nightly cleanup

  /** The same run on a system that never cleans up. */
  function WithoutCleanup(ops: seq<Op>): (r: seq<Op>)
    ensures |r| == |ops|
  {
    seq(|ops|, i requires 0 <= i < |ops| => UnlessCleanup(ops[i]))
  }

  /** Every row belongs to a signed token, which expires no later than the row. */
  ghost predicate RowsOutliveTokens(s: State) {
    forall jti | jti in s.tokens :: jti in s.signed && s.signed[jti] * 1000 <= s.tokens[jti].expiresAt
  }

  /** Rows that only the system without cleanup still has are of no use to anybody. */
  predicate SameButDead(clean: State, full: State) {
    && clean.ttl == full.ttl && clean.now == full.now && clean.users == full.users && clean.signed == full.signed
    && (forall jti :: jti in clean.tokens ==> jti in full.tokens && full.tokens[jti] == clean.tokens[jti])
    && (forall jti :: jti in full.tokens && jti !in clean.tokens ==>
          full.tokens[jti].isRevoked || full.tokens[jti].expiresAt < full.now)
  }

  function UnlessCleanup(op: Op): Op { if op.Cleanup? then Advance(0) else op }

  lemma StepKeepsRowsOutlive(s: State, op: Op)
    requires RowsOutliveTokens(s)
    ensures RowsOutliveTokens(Step(s, op).0)
  {
    ExpBeforeDue(s.now, s.ttl);
    hide Exp, Verifies;
  }

  lemma StepKeepsSameButDead(clean: State, full: State, op: Op)
    requires SameButDead(clean, full) && RowsOutliveTokens(full)
    ensures SameButDead(Step(clean, op).0, Step(full, UnlessCleanup(op)).0)
    ensures Step(clean, op).1 == Step(full, UnlessCleanup(op)).1
  {
    match op
    case Refresh(cred, jti) => RefreshKeepsSameButDead(clean, full, cred, jti); hide *;
    case Logout(cred) => LogoutKeepsSameButDead(clean, full, cred); hide *;
    case Login(userId, ok, jti) => LoginKeepsSameButDead(clean, full, userId, ok, jti); hide *;
    case Cleanup => hide Verifies, DoRefresh, DoLogout, DoLogin, DoRegister;
    case _ => hide Verifies, DoRefresh, DoLogout, DoLogin, Purge;
  }

  lemma LoginKeepsSameButDead(clean: State, full: State, userId: nat, passwordMatches: bool, jti: Jti)
    requires SameButDead(clean, full)
    ensures SameButDead(DoLogin(clean, userId, passwordMatches, jti).0, DoLogin(full, userId, passwordMatches, jti).0)
    ensures DoLogin(clean, userId, passwordMatches, jti).1 == DoLogin(full, userId, passwordMatches, jti).1
  {}

  lemma RefreshKeepsSameButDead(clean: State, full: State, cred: Credential, jti: Jti)
    requires SameButDead(clean, full) && RowsOutliveTokens(full)
    ensures SameButDead(DoRefresh(clean, cred, jti).0, DoRefresh(full, cred, jti).0)
    ensures DoRefresh(clean, cred, jti).1 == DoRefresh(full, cred, jti).1
  {}

  lemma LogoutKeepsSameButDead(clean: State, full: State, cred: Credential)
    requires SameButDead(clean, full) && RowsOutliveTokens(full)
    ensures SameButDead(DoLogout(clean, cred).0, DoLogout(full, cred).0)
    ensures DoLogout(clean, cred).1 == DoLogout(full, cred).1
  {}

  lemma {:induction false} CleanupSimulation(s0: State, ops: seq<Op>, k: nat)
    requires k <= |ops| && RowsOutliveTokens(s0)
    ensures SameButDead(After(s0, ops, k), After(s0, WithoutCleanup(ops), k))
    ensures RowsOutliveTokens(After(s0, WithoutCleanup(ops), k))
  {
    if k > 0 {
      CleanupSimulation(s0, ops, k - 1);
      hide Step;
      StepKeepsSameButDead(After(s0, ops, k - 1), After(s0, WithoutCleanup(ops), k - 1), ops[k - 1]);
      StepKeepsRowsOutlive(After(s0, WithoutCleanup(ops), k - 1), WithoutCleanup(ops)[k - 1]);
    }
  }

  /**
   The nightly cleanup is invisible: from any table whose rows outlive their tokens, every call,
   logout included, has the outcome it would have had without it.
   */
  lemma CleanupIsInvisible(s0: State, ops: seq<Op>, k: nat)
    requires k < |ops| && RowsOutliveTokens(s0)
    ensures OutcomeAt(s0, ops, k) == OutcomeAt(s0, WithoutCleanup(ops), k)
    ensures After(s0, ops, k).users == After(s0, WithoutCleanup(ops), k).users
  {
    CleanupSimulation(s0, ops, k);
    hide Step;
    StepKeepsSameButDead(After(s0, ops, k), After(s0, WithoutCleanup(ops), k), ops[k]);
  }

  /** What a cleanup leaves: of the tokens of the run, exactly those not redeemed and not past their due time. */
  lemma CleanupLeaves(s0: State, ops: seq<Op>, k: nat, jti: Jti)
    requires IsRun(s0, ops) && k < |ops| && ops[k].Cleanup?
    ensures jti in After(s0, ops, k + 1).tokens
      <==> exists i: nat :: i < k && IssuedAt(s0, ops, i, jti) && !RedeemedBetween(s0, ops, i, k, jti)
             && After(s0, ops, k).now <= After(s0, ops, i).now + s0.ttl
    ensures jti in After(s0, ops, k + 1).tokens ==>
              jti in After(s0, ops, k).tokens && After(s0, ops, k + 1).tokens[jti] == After(s0, ops, k).tokens[jti]
    ensures After(s0, ops, k + 1).users == After(s0, ops, k).users
  {
    PurgeMeans(After(s0, ops, k), jti);
    hide Step;
    if jti in After(s0, ops, k).tokens {
      RowsWereIssued(s0, ops, k, jti);
    }
    forall i: nat | i < k && IssuedAt(s0, ops, i, jti) ensures RowTellsHistory(s0, ops, i, k, jti) {
      RowHistory(s0, ops, i, k, jti);
    }
  }

  lemma PurgeMeans(s: State, jti: Jti)
    ensures var t := Step(s, Cleanup).0;
            && t.users == s.users
            && (jti in t.tokens <==> jti in s.tokens && !s.tokens[jti].isRevoked && s.now <= s.tokens[jti].expiresAt)
            && (jti in t.tokens ==> t.tokens[jti] == s.tokens[jti])
  {}

  // ---------------------------------------------------------------- the service

  class AuthService {
    const refreshExpiresInMs: nat
    var now: int
    var users: map<nat, User>
    var tokens: map<Jti, Token>
    var signed: map<Jti, int>

    constructor (refreshExpiresInMs: nat, users: map<nat, User>, now: int)
      ensures Snapshot() == State(refreshExpiresInMs, now, users, map[], map[])
    {
      this.refreshExpiresInMs := refreshExpiresInMs;
      this.now := now;
      this.users := users;
      this.tokens := map[];
      this.signed := map[];
    }

    ghost function Snapshot(): State
      reads this
    {
      State(refreshExpiresInMs, now, users, tokens, signed)
    }

    method GenerateAuthResponse(userId: nat, jti: Jti) returns (out: Outcome)
      modifies this`tokens, this`signed
      ensures Snapshot() == Issue(old(Snapshot()), userId, jti) && out == Issued(jti, userId)
    {
      var iat := now / 1000;
      signed := signed[jti := iat + refreshExpiresInMs / 1000];
      var expiresAt := now + refreshExpiresInMs;
      tokens := tokens[jti := Token(userId, expiresAt, false, None)];
      out := Issued(jti, userId);
    }

    /** The mail goes out before the tokens are made, and its failure undoes the user. */
    method RegisterUser(newId: nat, newJti: Jti, roleExists: bool, mailSent: bool) returns (out: Outcome)
      modifies this`users, this`tokens, this`signed
      ensures (Snapshot(), out) == Step(old(Snapshot()), Register(newId, newJti, roleExists, mailSent))
    {
      if newId in users {
        return Conflict;
      }
      if !roleExists {
        return RoleNotFound;
      }
      var before := users;
      users := users[newId := User(true, true, false, None, None)];
      if !mailSent {
        users := before;
        return MailError;
      }
      out := GenerateAuthResponse(newId, newJti);
    }

    method LoginUser(userId: nat, passwordMatches: bool, newJti: Jti) returns (out: Outcome)
      modifies this`users, this`tokens, this`signed
      ensures (Snapshot(), out) == Step(old(Snapshot()), Login(userId, passwordMatches, newJti))
    {
      if userId !in users {
        return Unauthorized;
      }
      var user := users[userId];
      if user.isBanned {
        return Unauthorized;
      }
      if !user.isActive {
        return Unauthorized;
      }
      if !user.hasPassword || !passwordMatches {
        return Unauthorized;
      }
      users := users[userId := user.(lastLoginAt := Some(now), lastActiveAt := Some(now))];
      out := GenerateAuthResponse(userId, newJti);
    }

    /** jwtService.verifyAsync, for a string that carries a jti or does not. */
    method VerifyAsync(cred: Credential) returns (ok: bool)
      ensures ok <==> Verifies(Snapshot(), cred)
    {
      match cred
      case Unverifiable => ok := false;
      case WithoutJti => ok := true;
      case Signed(jti) =>
        var clockTimestamp := now / 1000;
        ok := jti in signed && !(clockTimestamp >= signed[jti]);
    }

    method RefreshAccessToken(cred: Credential, newJti: Jti) returns (out: Outcome)
      modifies this`users, this`tokens, this`signed
      ensures (Snapshot(), out) == Step(old(Snapshot()), Refresh(cred, newJti))
    {
      var verified := VerifyAsync(cred);
      if !verified || !cred.Signed? {
        return Unauthorized;
      }
      if cred.jti !in tokens {
        return Unauthorized;
      }
      var stored := tokens[cred.jti];
      if stored.isRevoked {
        return Unauthorized;
      }
      if now > stored.expiresAt {
        return Unauthorized;
      }
      if stored.userId !in users || !users[stored.userId].isActive || users[stored.userId].isBanned {
        return Unauthorized;
      }
      tokens := tokens[cred.jti := stored.(isRevoked := true, revokedAt := Some(now))];
      users := users[stored.userId := users[stored.userId].(lastActiveAt := Some(now))];
      out := GenerateAuthResponse(stored.userId, newJti);
    }

    method LogoutUser(cred: Credential) returns (out: Outcome)
      modifies this`tokens
      ensures (Snapshot(), out) == Step(old(Snapshot()), Logout(cred))
    {
      var verified := VerifyAsync(cred);
      if !verified {
        return TokenError;
      }
      if cred.WithoutJti? {
        return Quiet;
      }
      if cred.jti !in tokens || tokens[cred.jti].isRevoked {
        return Unauthorized;
      }
      tokens := tokens[cred.jti := tokens[cred.jti].(isRevoked := true, revokedAt := Some(now))];
      out := LoggedOut;
    }

    method CleanupExpiredTokens()
      modifies this`tokens
      ensures Snapshot() == Step(old(Snapshot()), Cleanup).0
    {
      tokens := map jti | jti in tokens && !(tokens[jti].expiresAt < now || tokens[jti].isRevoked) :: tokens[jti];
    }
  }
}
