/**
 GoogleOAuthService: finding, linking or creating the account behind a Google sign-in, next to
 AuthService.register, which shares the users table.

 handleGoogleCallback is one transaction: when it throws, nothing it wrote remains.
 */
module GoogleAccounts {
  import opened Wrappers
  import Decimal

  datatype User = User(email: string, username: string, googleId: Option<string>, emailVerified: bool,
                       avatarKey: Option<string>, hasPassword: bool, isActive: bool, isBanned: bool,
                       lastLoginAt: Option<int>, lastActiveAt: Option<int>)

  datatype GoogleUser = GoogleUser(id: string, email: string, picture: Option<string>, verifiedEmail: bool)

  type Users = map<nat, User>

  datatype State = State(users: Users, nextId: nat)

  datatype Op =
    | Register(email: string, username: string, roleExists: bool)
    | Callback(google: GoogleUser, roleExists: bool, now: int)
    | Administer(id: nat, isActive: bool, isBanned: bool)

  datatype Outcome = SignedIn(id: nat) | Conflict | RoleMissing | AccountBanned | AccountInactive | Done

  // ---------------------------------------------------------------- the username search

  /** The i-th name that createGoogleUser tries. */
  function Candidate(base: string, i: nat): string {
    if i == 0 then base else base + Decimal.PrintInt(i)
  }

  lemma CandidatesDiffer(base: string, i: nat, j: nat)
    requires Candidate(base, i) == Candidate(base, j)
    ensures i == j
  {
    assert i > 0 ==> Candidate(base, i)[|base|..] == Decimal.PrintInt(i) && |Candidate(base, i)| > |base|;
    assert j > 0 ==> Candidate(base, j)[|base|..] == Decimal.PrintInt(j) && |Candidate(base, j)| > |base|;
    if i > 0 && j > 0 {
      Decimal.PrintInjective(i, j);
    }
  }

  predicate NameTaken(users: Users, name: string) {
    exists id | id in users :: users[id].username == name
  }

  /** Pigeonhole: as many candidates can be taken as there are users. */
  lemma {:induction false} TakenPrefixIsShort(users: Users, base: string, n: nat)
    requires forall i | 0 <= i < n :: NameTaken(users, Candidate(base, i))
    ensures n <= |users|
  {
    if n > 0 {
      assert NameTaken(users, Candidate(base, n - 1));
      var id: nat :| id in users && users[id].username == Candidate(base, n - 1);
      var others := users - {id};
      forall i | 0 <= i < n - 1 ensures NameTaken(others, Candidate(base, i)) {
        assert NameTaken(users, Candidate(base, i));
        var o: nat :| o in users && users[o].username == Candidate(base, i);
        if o == id {
          CandidatesDiffer(base, i, n - 1);
        }
        assert o in others && others[o].username == Candidate(base, i);
      }
      TakenPrefixIsShort(others, base, n - 1);
      assert users.Keys == others.Keys + {id};
    }
  }

  /** Index of the first free candidate at or after i. */
  function FirstFree(users: Users, base: string, i: nat): (n: nat)
    requires forall j | 0 <= j < i :: NameTaken(users, Candidate(base, j))
    ensures i <= n <= |users| && !NameTaken(users, Candidate(base, n))
    ensures forall j | 0 <= j < n :: NameTaken(users, Candidate(base, j))
    decreases |users| - i
  {
    TakenPrefixIsShort(users, base, i);
    if !NameTaken(users, Candidate(base, i)) then i else
    TakenPrefixIsShort(users, base, i + 1);
    FirstFree(users, base, i + 1)
  }

  function LocalPart(email: string): (r: string)
    ensures '@' !in r && r <= email && (r == email || email[|r|] == '@')
  {
    if email == "" || email[0] == '@' then "" else
    var r := LocalPart(email[1..]);
    assert email == [email[0]] + email[1..];
    [email[0]] + r
  }

  // ---------------------------------------------------------------- one step

  ghost function ByGoogleId(users: Users, googleId: string): (r: Option<nat>)
    ensures r.Some? ==> r.value in users && users[r.value].googleId == Some(googleId)
    ensures r.None? ==> forall id | id in users :: users[id].googleId != Some(googleId)
  {
    if id :| id in users && users[id].googleId == Some(googleId) then Some(id) else None
  }

  ghost function ByEmail(users: Users, email: string): (r: Option<nat>)
    ensures r.Some? ==> r.value in users && users[r.value].email == email
    ensures r.None? ==> forall id | id in users :: users[id].email != email
  {
    if id :| id in users && users[id].email == email then Some(id) else None
  }

  function Link(user: User, g: GoogleUser): User {
    user.(googleId := Some(g.id), emailVerified := g.verifiedEmail,
          avatarKey := if user.avatarKey.Some? then user.avatarKey else g.picture)
  }

  function FromGoogle(users: Users, g: GoogleUser): User {
    var base := LocalPart(g.email);
    User(g.email, Candidate(base, FirstFree(users, base, 0)), Some(g.id), g.verifiedEmail, g.picture,
         false, true, false, None, None)
  }

  /** Step 3 of the callback: the table with the account in it, and the account. */
  ghost function FindOrCreate(s: State, g: GoogleUser, roleExists: bool): (State, Outcome) {
    var byId, byEmail := ByGoogleId(s.users, g.id), ByEmail(s.users, g.email);
    if byId.Some? then (s, SignedIn(byId.value))
    else if byEmail.Some? then
      if s.users[byEmail.value].googleId.None?
      then (s.(users := s.users[byEmail.value := Link(s.users[byEmail.value], g)]), SignedIn(byEmail.value))
      else (s, Conflict)
    else if !roleExists then (s, RoleMissing)
    else (State(s.users[s.nextId := FromGoogle(s.users, g)], s.nextId + 1), SignedIn(s.nextId))
  }

  ghost function DoCallback(s: State, g: GoogleUser, roleExists: bool, now: int): (State, Outcome) {
    var (t, out) := FindOrCreate(s, g, roleExists);
    if !out.SignedIn? then (s, out)
    else if out.id !in t.users then (s, Conflict)
    else if t.users[out.id].isBanned then (s, AccountBanned)
    else if !t.users[out.id].isActive then (s, AccountInactive)
    else
      var user := t.users[out.id].(lastLoginAt := Some(now), lastActiveAt := Some(now));
      (t.(users := t.users[out.id := user]), out)
  }

  function DoRegister(s: State, email: string, username: string, roleExists: bool): (State, Outcome) {
    if (exists id | id in s.users :: s.users[id].email == email) || NameTaken(s.users, username) then (s, Conflict)
    else if !roleExists then (s, RoleMissing)
    else
      var user := User(email, username, None, false, None, true, true, false, None, None);
      (State(s.users[s.nextId := user], s.nextId + 1), SignedIn(s.nextId))
  }

  ghost function Step(s: State, op: Op): (State, Outcome) {
    match op
    case Register(email, username, roleExists) => DoRegister(s, email, username, roleExists)
    case Callback(g, roleExists, now) => DoCallback(s, g, roleExists, now)
    case Administer(id, isActive, isBanned) =>
      (if id in s.users
       then s.(users := s.users[id := s.users[id].(isActive := isActive, isBanned := isBanned)]) else s, Done)
  }

  // ---------------------------------------------------------------- what every step keeps

  /** Emails, usernames and Google ids are unique. */
  predicate Unique(s: State) {
    && (forall id | id in s.users :: id < s.nextId)
    && (forall a, b | a in s.users && b in s.users && a != b ::
          && s.users[a].email != s.users[b].email
          && s.users[a].username != s.users[b].username
          && (s.users[a].googleId.Some? ==> s.users[a].googleId != s.users[b].googleId))
  }

  /** Accounts stay, with their email and username, and a Google id once linked is never replaced. */
  predicate Preserves(s: State, t: State) {
    forall id | id in s.users ::
      && id in t.users && t.users[id].email == s.users[id].email && t.users[id].username == s.users[id].username
      && (s.users[id].googleId.Some? ==> t.users[id].googleId == s.users[id].googleId)
  }

  lemma LinkKeeps(s: State, id: nat, g: GoogleUser)
    requires Unique(s) && id in s.users && s.users[id].googleId.None?
    requires forall o | o in s.users :: s.users[o].googleId != Some(g.id)
    ensures var t := s.(users := s.users[id := Link(s.users[id], g)]); Unique(t) && Preserves(s, t)
  {}

  lemma CreateKeeps(s: State, user: User)
    requires Unique(s) && !NameTaken(s.users, user.username)
    requires forall o | o in s.users :: s.users[o].email != user.email
    requires forall o | o in s.users && user.googleId.Some? :: s.users[o].googleId != user.googleId
    ensures var t := State(s.users[s.nextId := user], s.nextId + 1); Unique(t) && Preserves(s, t)
  {}

  lemma FindOrCreateKeeps(s: State, g: GoogleUser, roleExists: bool)
    requires Unique(s)
    ensures var (t, out) := FindOrCreate(s, g, roleExists);
            && Unique(t) && Preserves(s, t)
            && (out.SignedIn? ==> (
                  && out.id in t.users && t.users[out.id].googleId == Some(g.id)
                  && (out.id in s.users ==> s.users[out.id].googleId == Some(g.id) || s.users[out.id].email == g.email)
                  && (forall id | id in s.users && id != out.id :: t.users[id] == s.users[id])))
            && (!out.SignedIn? ==> t == s)
  {
    var byId, byEmail := ByGoogleId(s.users, g.id), ByEmail(s.users, g.email);
    if byId.None? {
      if byEmail.Some? {
        if s.users[byEmail.value].googleId.None? {
          LinkKeeps(s, byEmail.value, g);
        }
      } else {
        CreateKeeps(s, FromGoogle(s.users, g));
      }
    }
  }

  lemma TouchKeeps(s: State, id: nat, now: int)
    requires Unique(s) && id in s.users
    ensures var t := s.(users := s.users[id := s.users[id].(lastLoginAt := Some(now), lastActiveAt := Some(now))]);
            Unique(t) && forall r :: Preserves(r, s) ==> Preserves(r, t)
  {}

  /** Every outcome of a callback: what it keeps, whom it signs in, and that a rejection changes nothing. */
  lemma CallbackKeeps(s: State, g: GoogleUser, roleExists: bool, now: int)
    requires Unique(s)
    ensures var (t, out) := DoCallback(s, g, roleExists, now);
            && Unique(t) && Preserves(s, t)
            && (out.SignedIn? ==> (
                  && out.id in t.users && t.users[out.id].googleId == Some(g.id)
                  && t.users[out.id].isActive && !t.users[out.id].isBanned
                  && t.users[out.id].lastLoginAt == Some(now)
                  && (out.id in s.users ==> s.users[out.id].googleId == Some(g.id) || s.users[out.id].email == g.email)
                  && (forall id | id in s.users && id != out.id :: t.users[id] == s.users[id])))
            && (!out.SignedIn? ==> t == s)
  {
    FindOrCreateKeeps(s, g, roleExists);
    var (m, out) := FindOrCreate(s, g, roleExists);
    hide FindOrCreate, Unique, Preserves;
    if out.SignedIn? {
      TouchKeeps(m, out.id, now);
    }
    UniqueRefl(s);
  }

  lemma UniqueRefl(s: State)
    ensures Preserves(s, s)
  {}

  predicate HasGoogleId(users: Users, googleId: string) {
    exists id | id in users :: users[id].googleId == Some(googleId)
  }

  predicate HasEmail(users: Users, email: string) {
    exists id | id in users :: users[id].email == email
  }

  /**
   When a callback signs in: the account with the Google id, else the unlinked account with the
   email, may act; or there is neither and the user role exists.
   */
  lemma CallbackSucceedsIff(s: State, g: GoogleUser, roleExists: bool, now: int)
    requires Unique(s)
    ensures var out := DoCallback(s, g, roleExists, now).1;
            && (HasGoogleId(s.users, g.id) ==> (out.SignedIn?
                  <==> exists id | id in s.users ::
                         s.users[id].googleId == Some(g.id) && s.users[id].isActive && !s.users[id].isBanned))
            && (!HasGoogleId(s.users, g.id) && HasEmail(s.users, g.email) ==> (out.SignedIn?
                  <==> exists id | id in s.users ::
                         s.users[id].email == g.email && s.users[id].googleId.None?
                         && s.users[id].isActive && !s.users[id].isBanned))
            && (!HasGoogleId(s.users, g.id) && !HasEmail(s.users, g.email) ==> (out.SignedIn? <==> roleExists))
  {
    var byId, byEmail := ByGoogleId(s.users, g.id), ByEmail(s.users, g.email);
    assert byId.Some? <==> HasGoogleId(s.users, g.id);
    assert byEmail.Some? <==> HasEmail(s.users, g.email);
  }

  /**
   The account after a sign-in.  One that was there keeps its email, username, password and standing; linking
   takes the verification of the email from Google, and the picture where no avatar is set.  A new one has
   what Google says, no password, and the first free of the names that its email suggests.
   */
  lemma AccountAfterCallback(s: State, g: GoogleUser, roleExists: bool, now: int)
    requires Unique(s) && DoCallback(s, g, roleExists, now).1.SignedIn?
    ensures var (t, out) := DoCallback(s, g, roleExists, now);
            out.id in t.users &&
            var user := t.users[out.id];
            if out.id in s.users then
              var was := s.users[out.id];
              && user.email == was.email && user.username == was.username && user.googleId == Some(g.id)
              && user.hasPassword == was.hasPassword && user.isActive == was.isActive && user.isBanned == was.isBanned
              && user.emailVerified == (if was.googleId.Some? then was.emailVerified else g.verifiedEmail)
              && user.avatarKey == (if was.googleId.None? && was.avatarKey.None? then g.picture else was.avatarKey)
              && user.lastLoginAt == user.lastActiveAt == Some(now) && t.nextId == s.nextId
            else
              && out.id == s.nextId && t.nextId == s.nextId + 1
              && user == User(g.email, user.username, Some(g.id), g.verifiedEmail, g.picture,
                              false, true, false, Some(now), Some(now))
              && !NameTaken(s.users, user.username)
              && (!NameTaken(s.users, LocalPart(g.email)) ==> user.username == LocalPart(g.email))
              && (NameTaken(s.users, LocalPart(g.email)) ==>
                    exists n: nat :: n > 0 && user.username == LocalPart(g.email) + Decimal.PrintInt(n))
              && exists n: nat :: user.username == Candidate(LocalPart(g.email), n)
                   && forall i | 0 <= i < n :: NameTaken(s.users, Candidate(LocalPart(g.email), i))
  {
    var byId, byEmail := ByGoogleId(s.users, g.id), ByEmail(s.users, g.email);
    if byId.None? && byEmail.None? {
      var n := FirstFree(s.users, LocalPart(g.email), 0);
      assert FromGoogle(s.users, g).username == Candidate(LocalPart(g.email), n);
      assert Candidate(LocalPart(g.email), 0) == LocalPart(g.email);
      assert n > 0 ==> Candidate(LocalPart(g.email), n) == LocalPart(g.email) + Decimal.PrintInt(n);
      assert NameTaken(s.users, LocalPart(g.email)) <==> n > 0;
    }
  }

  /** Why a callback refuses: the linked account may not act, or the email belongs to another Google account. */
  lemma CallbackRefusesIff(s: State, g: GoogleUser, roleExists: bool, now: int)
    requires Unique(s)
    ensures var out := DoCallback(s, g, roleExists, now).1;
            && (out == RoleMissing <==> !HasGoogleId(s.users, g.id) && !HasEmail(s.users, g.email) && !roleExists)
            && (out == Conflict <==> !HasGoogleId(s.users, g.id) && exists id | id in s.users ::
                                       s.users[id].email == g.email && s.users[id].googleId.Some?)
            && (out == AccountBanned <==> exists id | id in s.users :: Matched(s, g, id) && s.users[id].isBanned)
            && (out == AccountInactive <==> exists id | id in s.users ::
                                              Matched(s, g, id) && !s.users[id].isBanned && !s.users[id].isActive)
  {
    var byId, byEmail := ByGoogleId(s.users, g.id), ByEmail(s.users, g.email);
    assert byId.Some? <==> HasGoogleId(s.users, g.id);
    assert byEmail.Some? <==> HasEmail(s.users, g.email);
    assert byId.Some? ==> Matched(s, g, byId.value);
    assert byId.None? && byEmail.Some? && s.users[byEmail.value].googleId.None? ==> Matched(s, g, byEmail.value);
  }

  /** The account that the callback finds: by Google id, else by email when that one is not linked. */
  predicate Matched(s: State, g: GoogleUser, id: nat)
    requires id in s.users
  {
    if HasGoogleId(s.users, g.id) then s.users[id].googleId == Some(g.id)
    else s.users[id].email == g.email && s.users[id].googleId.None?
  }

  /** An administrator sets the standing of one account, and nothing else. */
  lemma AdministerSets(s: State, id: nat, isActive: bool, isBanned: bool)
    ensures var t := Step(s, Administer(id, isActive, isBanned)).0;
            && t.users.Keys == s.users.Keys && t.nextId == s.nextId
            && (forall o | o in s.users && o != id :: t.users[o] == s.users[o])
            && (id in s.users ==> t.users[id] == s.users[id].(isActive := isActive, isBanned := isBanned))
  {}

  /** A registration succeeds exactly with a free email, a free username and the role there. */
  lemma RegisterSucceedsIff(s: State, email: string, username: string, roleExists: bool)
    requires Unique(s)
    ensures var (t, out) := DoRegister(s, email, username, roleExists);
            var free := forall id | id in s.users :: s.users[id].email != email && s.users[id].username != username;
            && (out == SignedIn(s.nextId) <==> free && roleExists)
            && (out == Conflict <==> !free) && (out == RoleMissing <==> free && !roleExists)
            && (out.SignedIn? ==> t.nextId == s.nextId + 1 && t.users == s.users[s.nextId :=
                  User(email, username, None, false, None, true, true, false, None, None)])
            && (!out.SignedIn? ==> t == s)
  {
    if exists id | id in s.users :: s.users[id].email == email {
    } else if NameTaken(s.users, username) {
    }
  }

  lemma StepKeeps(s: State, op: Op)
    requires Unique(s)
    ensures Unique(Step(s, op).0) && Preserves(s, Step(s, op).0)
  {
    match op
    case Callback(g, roleExists, now) => CallbackKeeps(s, g, roleExists, now); hide *;
    case Register(email, username, roleExists) => RegisterKeeps(s, email, username, roleExists); hide *;
    case Administer(_, _, _) =>
  }

  /** register: a taken email or username is refused, and a refusal changes nothing. */
  lemma RegisterKeeps(s: State, email: string, username: string, roleExists: bool)
    requires Unique(s)
    ensures var (t, out) := DoRegister(s, email, username, roleExists);
            Unique(t) && Preserves(s, t) && (!out.SignedIn? ==> t == s)
  {
    if !(exists id | id in s.users :: s.users[id].email == email) && !NameTaken(s.users, username) {
      CreateKeeps(s, User(email, username, None, false, None, true, true, false, None, None));
    }
    UniqueRefl(s);
  }

  ghost function After(s0: State, ops: seq<Op>, k: nat): State
    requires k <= |ops|
  {
    if k == 0 then s0 else Step(After(s0, ops, k - 1), ops[k - 1]).0
  }

  /** Main result: uniqueness holds after every run, and no run ever replaces a linked Google id. */
  lemma {:induction false} RunsKeep(s0: State, ops: seq<Op>, i: nat, k: nat)
    requires Unique(s0) && i <= k <= |ops|
    ensures Unique(After(s0, ops, k)) && Preserves(After(s0, ops, i), After(s0, ops, k))
  {
    hide Step;
    if k == 0 {
    } else if i == k {
      RunsKeep(s0, ops, k - 1, k - 1);
      StepKeeps(After(s0, ops, k - 1), ops[k - 1]);
    } else {
      RunsKeep(s0, ops, i, k - 1);
      StepKeeps(After(s0, ops, k - 1), ops[k - 1]);
    }
  }

  /** One Google account always signs in to the same user. */
  lemma SameGoogleSameUser(s0: State, ops: seq<Op>, i: nat, k: nat)
    requires Unique(s0) && i < k < |ops| && ops[i].Callback? && ops[k].Callback? && ops[i].google.id == ops[k].google.id
    requires Step(After(s0, ops, i), ops[i]).1.SignedIn? && Step(After(s0, ops, k), ops[k]).1.SignedIn?
    ensures Step(After(s0, ops, i), ops[i]).1 == Step(After(s0, ops, k), ops[k]).1
  {
    hide Unique, FindOrCreate;
    RunsKeep(s0, ops, i, i);
    RunsKeep(s0, ops, i + 1, k);
    CallbackKeeps(After(s0, ops, i), ops[i].google, ops[i].roleExists, ops[i].now);
    var u := Step(After(s0, ops, i), ops[i]).1.id;
    hide Step, DoCallback;
    assert u in After(s0, ops, i + 1).users;
    KnownGoogleSignsIn(After(s0, ops, k), ops[k], u);
  }

  lemma KnownGoogleSignsIn(s: State, op: Op, u: nat)
    requires Unique(s) && op.Callback? && u in s.users && s.users[u].googleId == Some(op.google.id)
    ensures Step(s, op).1.SignedIn? ==> Step(s, op).1.id == u
  {
    var found := ByGoogleId(s.users, op.google.id);
    assert found.Some? && found.value == u;
  }

  // ---------------------------------------------------------------- the service

  class GoogleOAuthService {
    var users: Users
    var nextId: nat

    constructor ()
      ensures Table() == State(map[], 1)
    {
      users, nextId := map[], 1;
    }

    ghost function Table(): State
      reads this
    {
      State(users, nextId)
    }

    /** The search loop of createGoogleUser. */
    method FreeUsername(baseUsername: string) returns (username: string, probes: nat)
      ensures username == Candidate(baseUsername, FirstFree(users, baseUsername, 0))
      ensures 1 <= probes <= |users| + 1
    {
      username := baseUsername;
      var counter := 1;
      probes := 0;
      while true
        invariant counter >= 1 && probes == counter - 1 && username == Candidate(baseUsername, counter - 1)
        invariant probes <= |users|
        invariant forall j | 0 <= j < counter - 1 :: NameTaken(users, Candidate(baseUsername, j))
        decreases |users| - probes
      {
        probes := probes + 1;
        var existing := NameTaken(users, username);
        if !existing {
          break;
        }
        TakenPrefixIsShort(users, baseUsername, counter);
        username := baseUsername + Decimal.PrintInt(counter);
        counter := counter + 1;
      }
    }

    method CreateGoogleUser(g: GoogleUser, roleExists: bool) returns (out: Outcome)
      modifies this
      ensures !roleExists ==> out == RoleMissing && Table() == old(Table())
      ensures roleExists ==> out == SignedIn(old(nextId))
      ensures roleExists ==> Table() == State(old(users)[old(nextId) := FromGoogle(old(users), g)], old(nextId) + 1)
    {
      var username, probes := FreeUsername(LocalPart(g.email));
      if !roleExists {
        return RoleMissing;
      }
      var user := User(g.email, username, Some(g.id), g.verifiedEmail, g.picture, false, true, false, None, None);
      users := users[nextId := user];
      out := SignedIn(nextId);
      nextId := nextId + 1;
    }

    method HandleGoogleCallback(g: GoogleUser, roleExists: bool, now: int) returns (out: Outcome)
      requires Unique(Table())
      modifies this
      ensures (Table(), out) == Step(old(Table()), Callback(g, roleExists, now))
    {
      var savedUsers, savedNextId := users, nextId;
      var userId: nat;
      if linked: nat :| linked in users && users[linked].googleId == Some(g.id) {
        userId := linked;
      } else if existing: nat :| existing in users && users[existing].email == g.email {
        if users[existing].googleId.Some? {
          return Conflict;
        }
        var avatarKey := users[existing].avatarKey;
        if avatarKey.None? {
          avatarKey := g.picture;
        }
        users := users[existing := users[existing].(googleId := Some(g.id), emailVerified := g.verifiedEmail,
                                                    avatarKey := avatarKey)];
        userId := existing;
      } else {
        var created := CreateGoogleUser(g, roleExists);
        if !created.SignedIn? {
          return created;
        }
        userId := created.id;
      }
      if users[userId].isBanned {
        users, nextId := savedUsers, savedNextId;
        return AccountBanned;
      }
      if !users[userId].isActive {
        users, nextId := savedUsers, savedNextId;
        return AccountInactive;
      }
      users := users[userId := users[userId].(lastLoginAt := Some(now), lastActiveAt := Some(now))];
      out := SignedIn(userId);
    }
  }
}
