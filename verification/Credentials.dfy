/**
 Passwords and refresh tokens. A user remembers the hashes of the last three
 passwords and a token version that every refresh token must carry.
 */
module Credentials {
  import opened Integers
  import opened Outcomes
  import opened Text

  type UserId = nat

  datatype Status = Active | Disabled | Deleted

  // A hash that matches exactly the password it was made from; the salt makes two
  // hashes of one password different. NoHash is the empty string.
  datatype Hash = NoHash | Hashed(password: string, salt: nat)

  predicate Matches(h: Hash, password: string) {
    h.Hashed? && h.password == password
  }

  // A row of auth.users.
  datatype Account = Account(
    fullName: string, hash: Hash, previous0: Hash, previous1: Hash, tokenVersion: int, status: Status)

  datatype Error =
    | Forbidden
    | PasswordPattern
    | NotFound
    | InvalidCredentials
    | InvalidPassword
    | PasswordReused
    | InvalidFullName
    | ConstraintViolation

  // ----- the password pattern -----

  predicate IsSpecial(c: char) {
    c in "@#$*-_"
  }

  predicate IsUpper(c: char) {
    'A' <= c <= 'Z'
  }

  predicate IsLower(c: char) {
    'a' <= c <= 'z'
  }

  predicate Allowed(c: char) {
    IsDigit(c) || IsUpper(c) || IsLower(c) || IsSpecial(c)
  }

  predicate ValidPattern(password: string) {
    8 <= |password| <= 32 && forall k | 0 <= k < |password| :: Allowed(password[k])
  }

  method ValidatePasswordPattern(password: string) returns (ok: bool)
    ensures ok <==> ValidPattern(password)
    ensures ok <==> 8 <= |password| <= 32 &&
                    forall c | c in password ::
                      '0' <= c <= '9' || 'A' <= c <= 'Z' || 'a' <= c <= 'z' || c in ['@', '#', '$', '*', '-', '_']
  {
    if |password| < 8 || |password| > 32 {
      return false;
    }
    for i := 0 to |password|
      invariant forall k | 0 <= k < i :: Allowed(password[k])
    {
      var c := password[i];
      if !IsDigit(c) && !IsUpper(c) && !IsLower(c) && !IsSpecial(c) {
        return false;
      }
    }
    return true;
  }

  // What the comment above the check and its error text ask for.
  predicate DocumentedPattern(password: string) {
    && 7 < |password| < 32
    && (forall k | 0 <= k < |password| :: Allowed(password[k]))
    && (exists k | 0 <= k < |password| :: IsLower(password[k]))
    && (exists k | 0 <= k < |password| :: IsUpper(password[k]))
    && (exists k | 0 <= k < |password| :: IsDigit(password[k]))
    && (exists k | 0 <= k < |password| :: IsSpecial(password[k]))
  }

  // Nothing documented is refused; what is let in beyond it has 32 characters or
  // lacks one of the four kinds.
  lemma PatternIsLooser(password: string)
    ensures DocumentedPattern(password) ==> ValidPattern(password)
    ensures ValidPattern(password) && !DocumentedPattern(password) <==>
            && ValidPattern(password)
            && (|| |password| == 32
                || (forall k | 0 <= k < |password| :: !IsLower(password[k]))
                || (forall k | 0 <= k < |password| :: !IsUpper(password[k]))
                || (forall k | 0 <= k < |password| :: !IsDigit(password[k]))
                || (forall k | 0 <= k < |password| :: !IsSpecial(password[k])))
    ensures ValidPattern("aaaaaaaa") && !DocumentedPattern("aaaaaaaa")
  {
    assert forall k | 0 <= k < |"aaaaaaaa"| :: "aaaaaaaa"[k] == 'a';
  }

  // ----- the user -----

  predicate Reused(a: Account, password: string) {
    Matches(a.hash, password) || Matches(a.previous0, password) || Matches(a.previous1, password)
  }

  // User.ChangePassword with a hash of `next`
  function Changed(a: Account, hash: Hash, next: string, signOutAll: bool): Result<Account, Error> {
    if hash == NoHash then Err(InvalidPassword)
    else if Reused(a, next) then Err(PasswordReused)
    else Ok(a.(hash := hash, previous0 := a.hash, previous1 := a.previous0,
               tokenVersion := if signOutAll then a.tokenVersion + 1 else a.tokenVersion))
  }

  class User {
    var fullName: string
    var hash: Hash
    var previous: (Hash, Hash)
    var tokenVersion: int
    var status: Status

    function View(): Account
      reads this
    {
      Account(fullName, hash, previous.0, previous.1, tokenVersion, status)
    }

    constructor Restore(a: Account)
      ensures View() == a
    {
      fullName, hash, previous, tokenVersion, status := a.fullName, a.hash, (a.previous0, a.previous1), a.tokenVersion, a.status;
    }

    method Change(newHash: Hash, next: string, signOutAll: bool) returns (error: Option<Error>)
      modifies this
      ensures match Changed(old(View()), newHash, next, signOutAll)
              case Err(e) => error == Some(e) && View() == old(View())
              case Ok(a) => error == None && View() == a
      // refused exactly for the password in use and the two before it; accepted, the
      // new one takes the place of the oldest
      ensures error == Some(PasswordReused) <==> newHash != NoHash && Reused(old(View()), next)
      ensures error == None ==>
                forall p :: Reused(View(), p) <==> Matches(newHash, p) || Matches(old(hash), p) || Matches(old(previous).0, p)
    {
      if newHash == NoHash {
        return Some(InvalidPassword);
      }
      if Matches(hash, next)
         || (previous.0 != NoHash && Matches(previous.0, next))
         || (previous.1 != NoHash && Matches(previous.1, next)) {
        return Some(PasswordReused);
      }
      previous, hash := (hash, previous.0), newHash;
      if signOutAll {
        tokenVersion := tokenVersion + 1;
      }
      return None;
    }

    method RevokeRefreshTokens()
      modifies this`tokenVersion
      ensures View() == old(View()).(tokenVersion := old(tokenVersion) + 1)
    {
      tokenVersion := tokenVersion + 1;
    }
  }

  // ----- storage -----

  const INT32_MAX := TWO_31 - 1

  // int32(version) into a column with CHECK (token_ver > 0)
  function Stored(a: Account): Result<Account, Error> {
    var version := Wrap32(a.tokenVersion);
    if version <= 0 then Err(ConstraintViolation) else Ok(a.(tokenVersion := version))
  }

  predicate ValidRow(a: Account) {
    a.hash.Hashed? && 1 <= a.tokenVersion <= INT32_MAX
  }

  // ----- the service, on one account -----

  datatype Op =
    | ChangePasswordOp(current: string, next: string, signOutAll: bool, salt: nat)
    | SignOutAllOp
    | UpdateNameOp(name: string)
    | UpdateStatusOp(status: Status)
    | SignInOp(password: string)
    | RefreshOp(version: int)

  datatype Response = Done | Issued(version: int) | Refused(error: Error)

  // What an operation makes of the account it has loaded, before storing it.
  function Edited(a: Account, op: Op): Result<Account, Error>
    requires !op.SignInOp? && !op.RefreshOp?
  {
    match op
    case ChangePasswordOp(current, next, signOutAll, salt) =>
      if !ValidPattern(next) then Err(PasswordPattern)
      else if !Matches(a.hash, current) then Err(InvalidCredentials)
      else Changed(a, Hashed(next, salt), next, signOutAll)
    case SignOutAllOp => Ok(a.(tokenVersion := a.tokenVersion + 1))
    case UpdateNameOp(name) => if TrimSpace(name) == "" then Err(InvalidFullName) else Ok(a.(fullName := TrimSpace(name)))
    case UpdateStatusOp(status) => Ok(a.(status := status))
  }

  // Stores what `op` made of the row `loaded` over the row that is there now.
  // UpdateUserPassword leaves the name and the status alone, UpdateUser writes all.
  function StoreOver(row: Account, loaded: Account, op: Op): (Account, Response)
    requires !op.SignInOp? && !op.RefreshOp?
  {
    match Edited(loaded, op)
    case Err(e) => (row, Refused(e))
    case Ok(edited) =>
      match Stored(edited)
      case Err(e) => (row, Refused(if op.SignOutAllOp? then InvalidCredentials else e))
      case Ok(stored) =>
        (if op.ChangePasswordOp? then stored.(fullName := row.fullName, status := row.status) else stored, Done)
  }

  // One whole request with no other in between.
  function Step(row: Account, op: Op): (Account, Response) {
    match op
    case SignInOp(password) =>
      (row, if !Matches(row.hash, password) || row.status != Active then Refused(InvalidCredentials) else Issued(row.tokenVersion))
    case RefreshOp(version) =>
      (row, if row.tokenVersion != version || row.status != Active then Refused(InvalidCredentials) else Issued(row.tokenVersion))
    case _ => StoreOver(row, row, op)
  }

  class AuthService {
    var users: map<UserId, Account>

    constructor ()
      ensures users == map[]
    {
      users := map[];
    }

    method ChangePassword(actor: UserId, target: UserId, current: string, next: string, signOutAll: bool, salt: nat)
      returns (r: Response)
      modifies this
      ensures actor != target ==> r == Refused(Forbidden) && users == old(users)
      ensures actor == target && !ValidPattern(next) ==> r == Refused(PasswordPattern) && users == old(users)
      ensures actor == target && ValidPattern(next) && target !in old(users) ==> r == Refused(NotFound) && users == old(users)
      ensures actor == target && target in old(users) ==>
                var (row, response) := Step(old(users)[target], ChangePasswordOp(current, next, signOutAll, salt));
                r == response && users == old(users)[target := row]
    {
      if actor != target {
        return Refused(Forbidden);
      }
      var valid := ValidatePasswordPattern(next);
      if !valid {
        assert target in users ==> users == users[target := users[target]];
        return Refused(PasswordPattern);
      }
      if target !in users {
        return Refused(NotFound);
      }
      var row := users[target];
      assert users == users[target := row];
      var user := new User.Restore(row);
      if !Matches(user.hash, current) {
        return Refused(InvalidCredentials);
      }
      var error := user.Change(Hashed(next, salt), next, signOutAll);
      if error.Some? {
        return Refused(error.value);
      }
      var version := Wrap32(user.tokenVersion);
      if version <= 0 {
        return Refused(ConstraintViolation);
      }
      users := users[target := row.(hash := user.hash, previous0 := user.previous.0, previous1 := user.previous.1, tokenVersion := version)];
      return Done;
    }

    method SignOutAllDevices(target: UserId) returns (r: Response)
      modifies this
      ensures target !in old(users) ==> r == Refused(InvalidCredentials) && users == old(users)
      ensures target in old(users) ==>
                var (row, response) := Step(old(users)[target], SignOutAllOp);
                r == response && users == old(users)[target := row]
    {
      if target !in users {
        return Refused(InvalidCredentials);
      }
      var row := users[target];
      assert users == users[target := row];
      var user := new User.Restore(row);
      user.RevokeRefreshTokens();
      var version := Wrap32(user.tokenVersion);
      if version <= 0 {
        return Refused(InvalidCredentials);
      }
      users := users[target := Account(user.fullName, user.hash, user.previous.0, user.previous.1, version, user.status)];
      return Done;
    }

    method Refresh(target: UserId, version: int) returns (r: Response)
      ensures target !in users ==> r == Refused(InvalidCredentials)
      ensures target in users ==> r == Step(users[target], RefreshOp(version)).1
    {
      if target !in users {
        return Refused(InvalidCredentials);
      }
      var user := users[target];
      if user.tokenVersion != version || user.status != Active {
        return Refused(InvalidCredentials);
      }
      return Issued(user.tokenVersion);
    }

    method Update(target: UserId, op: Op) returns (r: Response)
      requires op.UpdateNameOp? || op.UpdateStatusOp?
      modifies this
      ensures target !in old(users) ==> r == Refused(NotFound) && users == old(users)
      ensures target in old(users) ==>
                var (row, response) := Step(old(users)[target], op);
                r == response && users == old(users)[target := row]
    {
      if target !in users {
        return Refused(NotFound);
      }
      var row := users[target];
      assert users == users[target := row];
      var user := new User.Restore(row);
      if op.UpdateNameOp? {
        if TrimSpace(op.name) == "" {
          return Refused(InvalidFullName);
        }
        user.fullName := TrimSpace(op.name);
      } else {
        user.status := op.status;
      }
      var version := Wrap32(user.tokenVersion);
      if version <= 0 {
        return Refused(ConstraintViolation);
      }
      users := users[target := user.View().(tokenVersion := version)];
      return Done;
    }

    method SignIn(target: UserId, password: string) returns (r: Response)
      ensures target !in users ==> r == Refused(InvalidCredentials)
      ensures target in users ==> r == Step(users[target], SignInOp(password)).1
    {
      if target !in users || !Matches(users[target].hash, password) || users[target].status != Active {
        return Refused(InvalidCredentials);
      }
      return Issued(users[target].tokenVersion);
    }

    // Any request of a user for the user's own account.
    method Serve(id: UserId, op: Op) returns (r: Response)
      modifies this
      ensures id !in old(users) ==>
                && users == old(users)
                && r == Refused(if op.ChangePasswordOp? && !ValidPattern(op.next) then PasswordPattern
                                else if op.ChangePasswordOp? || op.UpdateNameOp? || op.UpdateStatusOp? then NotFound
                                else InvalidCredentials)
      ensures id in old(users) ==> users == old(users)[id := Step(old(users)[id], op).0] && r == Step(old(users)[id], op).1
      // stored rows stay within the column bounds
      ensures (forall u | u in old(users) :: ValidRow(old(users)[u])) ==> forall u | u in users :: ValidRow(users[u])
      // a version that was stored before is never reached again once it was passed
      ensures id in old(users) && ValidRow(old(users)[id]) ==>
                old(users)[id].tokenVersion <= users[id].tokenVersion <= old(users)[id].tokenVersion + 1
    {
      if id in users && ValidRow(users[id]) {
        StepKeepsValid(users[id], op);
        VersionCountsRevocations(users[id], [op]);
      }
      hide Step, ValidRow;
      match op {
        case ChangePasswordOp(current, next, signOutAll, salt) => r := ChangePassword(id, id, current, next, signOutAll, salt);
        case SignOutAllOp => r := SignOutAllDevices(id);
        case UpdateNameOp(_) => r := Update(id, op);
        case UpdateStatusOp(_) => r := Update(id, op);
        case SignInOp(password) =>
          r := SignIn(id, password);
          LooksOnly(users, id, op);
        case RefreshOp(version) =>
          r := Refresh(id, version);
          LooksOnly(users, id, op);
      }
    }
  }

  lemma LooksOnly(users: map<UserId, Account>, id: UserId, op: Op)
    requires op.SignInOp? || op.RefreshOp?
    ensures id in users ==> users[id := Step(users[id], op).0] == users
  {
  }

  // ----- runs -----

  function Run(row: Account, ops: seq<Op>): Account
    decreases ops
  {
    if ops == [] then row else Run(Step(row, ops[0]).0, ops[1..])
  }

  function NewAccount(name: string, password: string, salt: nat): Account {
    Account(name, Hashed(password, salt), NoHash, NoHash, 1, Active)
  }

  lemma StepKeepsValid(row: Account, op: Op)
    requires ValidRow(row)
    ensures ValidRow(Step(row, op).0)
  {
  }

  lemma {:induction false} RunKeepsValid(row: Account, ops: seq<Op>)
    requires ValidRow(row)
    ensures ValidRow(Run(row, ops))
    decreases ops
  {
    if ops != [] {
      StepKeepsValid(row, ops[0]);
      RunKeepsValid(Step(row, ops[0]).0, ops[1..]);
    }
  }

  // ----- passwords -----

  // The passwords set by a run, oldest first, after those in `past`.
  function Passwords(past: seq<string>, row: Account, ops: seq<Op>): seq<string>
    decreases ops
  {
    if ops == [] then past
    else
      var (next, response) := Step(row, ops[0]);
      Passwords(if ops[0].ChangePasswordOp? && response.Done? then past + [ops[0].next] else past, next, ops[1..])
  }

  predicate Remembers(h: Hash, past: seq<string>, back: nat) {
    if back < |past| then h.Hashed? && h.password == past[|past| - 1 - back] else h == NoHash
  }

  // The row remembers the last three passwords.
  predicate Recorded(past: seq<string>, row: Account) {
    past != [] && Remembers(row.hash, past, 0) && Remembers(row.previous0, past, 1) && Remembers(row.previous1, past, 2)
  }

  predicate FourDistinct(past: seq<string>) {
    forall i, j | 0 <= i < j < |past| && j <= i + 3 :: past[i] != past[j]
  }

  lemma StepRecords(past: seq<string>, row: Account, op: Op)
    requires Recorded(past, row) && FourDistinct(past)
    ensures var (next, response) := Step(row, op);
            var now := if op.ChangePasswordOp? && response.Done? then past + [op.next] else past;
            Recorded(now, next) && FourDistinct(now)
  {
    if op.ChangePasswordOp? && Step(row, op).1.Done? {
      var now := past + [op.next];
      assert !Reused(row, op.next);
      forall i, j | 0 <= i < j < |now| && j <= i + 3
        ensures now[i] != now[j]
      {
      }
    }
  }

  lemma {:induction false} RunRecords(past: seq<string>, row: Account, ops: seq<Op>)
    requires Recorded(past, row) && FourDistinct(past)
    ensures Recorded(Passwords(past, row, ops), Run(row, ops)) && FourDistinct(Passwords(past, row, ops))
    decreases ops
  {
    if ops != [] {
      StepRecords(past, row, ops[0]);
      var (next, response) := Step(row, ops[0]);
      RunRecords(if ops[0].ChangePasswordOp? && response.Done? then past + [ops[0].next] else past, next, ops[1..]);
    }
  }

  // Over any run of one new account, any four passwords in a row differ pairwise.
  lemma NoEarlyReuse(name: string, password: string, salt: nat, ops: seq<Op>)
    ensures FourDistinct(Passwords([password], NewAccount(name, password, salt), ops))
  {
    RunRecords([password], NewAccount(name, password, salt), ops);
  }

  // After any run a change goes through exactly when the new password has the
  // pattern, the current one is right, the new one is none of the last three, and the
  // token version still fits when devices are to be signed out; otherwise the first of
  // these that fails is what the caller is told.
  lemma ChangeAcceptedIff(
    name: string, password: string, salt: nat, ops: seq<Op>, current: string, next: string, signOutAll: bool, newSalt: nat)
    ensures var row := Run(NewAccount(name, password, salt), ops);
            var past := Passwords([password], NewAccount(name, password, salt), ops);
            && past != []
            && Step(row, ChangePasswordOp(current, next, signOutAll, newSalt)).1 ==
               if !ValidPattern(next) then Refused(PasswordPattern)
               else if current != past[|past| - 1] then Refused(InvalidCredentials)
               else if exists k | 0 <= k < |past| && |past| - 3 <= k :: past[k] == next then Refused(PasswordReused)
               else if signOutAll && row.tokenVersion == INT32_MAX then Refused(ConstraintViolation)
               else Done
  {
    RunRecords([password], NewAccount(name, password, salt), ops);
    RunKeepsValid(NewAccount(name, password, salt), ops);
    var row := Run(NewAccount(name, password, salt), ops);
    var past := Passwords([password], NewAccount(name, password, salt), ops);
    var op := ChangePasswordOp(current, next, signOutAll, newSalt);
    StoredVersion(row, row, op);
    assert Step(row, op) == StoreOver(row, row, op);
    ReusedIff(past, row, next);
    NotInLast(past, next);
    hide StoreOver, Step, Run, Passwords, ValidPattern, Reused, FourDistinct, Last;
  }

  lemma NotInLast(past: seq<string>, password: string)
    ensures password !in Last(past, 3) <==> forall k | 0 <= k < |past| && |past| - 3 <= k :: past[k] != password
  {
    var n, last := |past|, Last(past, 3);
    if n > 3 {
      assert forall k | 0 <= k < 3 :: last[k] == past[n - 3 + k];
      assert forall k | n - 3 <= k < n :: past[k] == last[k - (n - 3)];
    }
  }

  // ----- token versions -----

  predicate Revokes(row: Account, op: Op) {
    Step(row, op).1.Done? && (op.SignOutAllOp? || (op.ChangePasswordOp? && op.signOutAll))
  }

  function Revocations(row: Account, ops: seq<Op>): nat
    decreases ops
  {
    if ops == [] then 0
    else (if Revokes(row, ops[0]) then 1 else 0) + Revocations(Step(row, ops[0]).0, ops[1..])
  }

  // The version counts the revocations and nothing else changes it, at the upper
  // bound of the column too: there a revocation is refused.
  lemma {:induction false} VersionCountsRevocations(row: Account, ops: seq<Op>)
    requires ValidRow(row)
    ensures Run(row, ops).tokenVersion == row.tokenVersion + Revocations(row, ops)
    decreases ops
  {
    if ops != [] {
      StepKeepsValid(row, ops[0]);
      VersionCountsRevocations(Step(row, ops[0]).0, ops[1..]);
    }
  }

  lemma SignOutRefusedIff(row: Account)
    requires ValidRow(row)
    ensures Step(row, SignOutAllOp).1 == if row.tokenVersion == 0x7fff_ffff then Refused(InvalidCredentials) else Done
  {
  }

  // A refresh token issued now is accepted after a run exactly when the account is
  // then active and nothing in the run revoked tokens.
  lemma TokenAcceptedIff(row: Account, issuing: Op, ops: seq<Op>)
    requires ValidRow(row) && Step(row, issuing).1.Issued?
    ensures var version := Step(row, issuing).1.version;
            var later := Run(row, ops);
            Step(later, RefreshOp(version)).1.Issued? <==> later.status == Active && Revocations(row, ops) == 0
  {
    VersionCountsRevocations(row, ops);
  }

  // ----- signing in -----

  // The status that the last status change asked for.
  function LastStatus(ops: seq<Op>): Status {
    if ops == [] then Active
    else
      var last := ops[|ops| - 1];
      if last.UpdateStatusOp? then last.status else LastStatus(ops[..|ops| - 1])
  }

  // The name that the last change to a name that is not blank asked for.
  function LastName(name: string, ops: seq<Op>): string {
    if ops == [] then name
    else
      var last := ops[|ops| - 1];
      if last.UpdateNameOp? && TrimSpace(last.name) != "" then TrimSpace(last.name) else LastName(name, ops[..|ops| - 1])
  }

  lemma StepStatusAndName(row: Account, op: Op)
    requires ValidRow(row)
    ensures Step(row, op).0.status == if op.UpdateStatusOp? then op.status else row.status
    ensures Step(row, op).0.fullName == if op.UpdateNameOp? && TrimSpace(op.name) != "" then TrimSpace(op.name) else row.fullName
    ensures op.SignInOp? || op.RefreshOp? ==> Step(row, op).0 == row
    ensures op.UpdateStatusOp? ==> Step(row, op).1 == Done
    ensures op.UpdateNameOp? ==> Step(row, op).1 == if TrimSpace(op.name) == "" then Refused(InvalidFullName) else Done
  {
  }

  lemma {:induction false} RunStatusAndName(name: string, password: string, salt: nat, ops: seq<Op>)
    ensures Run(NewAccount(name, password, salt), ops).status == LastStatus(ops)
    ensures Run(NewAccount(name, password, salt), ops).fullName == LastName(name, ops)
    decreases ops
  {
    if ops != [] {
      var n := |ops| - 1;
      var row := NewAccount(name, password, salt);
      RunStatusAndName(name, password, salt, ops[..n]);
      RunKeepsValid(row, ops[..n]);
      RunSplits(row, ops[..n], [ops[n]]);
      assert ops == ops[..n] + [ops[n]];
      StepStatusAndName(Run(row, ops[..n]), ops[n]);
      hide Step, ValidRow;
    }
  }

  // After any run signing in works exactly with the password set last, and only while
  // the last status change left the account active; the token then carries one more
  // than the number of revocations.
  lemma SignInAcceptedIff(name: string, password: string, salt: nat, ops: seq<Op>, tried: string)
    ensures var account := NewAccount(name, password, salt);
            var past := Passwords([password], account, ops);
            && past != []
            && Step(Run(account, ops), SignInOp(tried)).1 ==
               if tried == past[|past| - 1] && LastStatus(ops) == Active then Issued(1 + Revocations(account, ops))
               else Refused(InvalidCredentials)
  {
    RunRecords([password], NewAccount(name, password, salt), ops);
    RunStatusAndName(name, password, salt, ops);
    VersionCountsRevocations(NewAccount(name, password, salt), ops);
    hide FourDistinct, Run, Passwords, Revocations, LastStatus;
  }

  // And a refresh token works exactly while no revocation came after it was issued.
  lemma RefreshAcceptedIff(name: string, password: string, salt: nat, ops: seq<Op>, version: int)
    ensures var account := NewAccount(name, password, salt);
            Step(Run(account, ops), RefreshOp(version)).1 ==
            if version == 1 + Revocations(account, ops) && LastStatus(ops) == Active then Issued(version)
            else Refused(InvalidCredentials)
  {
    RunStatusAndName(name, password, salt, ops);
    VersionCountsRevocations(NewAccount(name, password, salt), ops);
    hide Run, Revocations, LastStatus;
  }

  lemma {:induction false} RunSplits(row: Account, a: seq<Op>, b: seq<Op>)
    ensures Run(row, a + b) == Run(Run(row, a), b)
    ensures Revocations(row, a + b) == Revocations(row, a) + Revocations(Run(row, a), b)
    decreases a
  {
    if a == [] {
      assert a + b == b;
    } else {
      assert (a + b)[1..] == a[1..] + b;
      RunSplits(Step(row, a[0]).0, a[1..], b);
    }
  }

  // Once a token is older than a revocation, no continuation makes it good again.
  lemma RevokedForever(row: Account, issuing: Op, before: seq<Op>, revoking: Op, after: seq<Op>)
    requires ValidRow(row) && Step(row, issuing).1.Issued? && Revokes(Run(row, before), revoking)
    ensures Step(Run(row, before + [revoking] + after), RefreshOp(Step(row, issuing).1.version)).1 == Refused(InvalidCredentials)
  {
    RunSplits(row, before, [revoking] + after);
    assert before + [revoking] + after == before + ([revoking] + after);
    assert ([revoking] + after)[1..] == after;
    VersionCountsRevocations(row, before + [revoking] + after);
  }

  // ----- requests that interleave -----

  // A request loads the row, edits it and stores it in separate statements; other
  // requests may run between the load and the store.

  // The request's own checks, all on the row it has loaded.
  predicate CanStore(loaded: Account, op: Op)
    requires !op.SignInOp? && !op.RefreshOp?
  {
    match op
    case ChangePasswordOp(current, next, signOutAll, _) =>
      ValidPattern(next) && Matches(loaded.hash, current) && !Reused(loaded, next)
      && (signOutAll ==> loaded.tokenVersion < INT32_MAX)
    case SignOutAllOp => loaded.tokenVersion < INT32_MAX
    case UpdateNameOp(name) => TrimSpace(name) != ""
    case UpdateStatusOp(_) => true
  }

  function Revoking(op: Op): nat {
    if op.SignOutAllOp? || (op.ChangePasswordOp? && op.signOutAll) then 1 else 0
  }

  // What a store leaves depends on the row it loaded, not on the row it replaces.
  lemma StoredVersion(row: Account, loaded: Account, op: Op)
    requires ValidRow(loaded) && !op.SignInOp? && !op.RefreshOp?
    ensures var (after, response) := StoreOver(row, loaded, op);
            && (response.Done? <==> CanStore(loaded, op))
            && (CanStore(loaded, op) ==> after.tokenVersion == loaded.tokenVersion + Revoking(op))
            && (!CanStore(loaded, op) ==> after == row)
  {
    hide ValidPattern, Reused;
  }

  // Column by column: a password change leaves the name and the status that are there
  // now, every other request puts back all it has loaded besides its own column.
  lemma StoredColumns(row: Account, loaded: Account, op: Op)
    requires ValidRow(loaded) && !op.SignInOp? && !op.RefreshOp? && CanStore(loaded, op)
    ensures var after := StoreOver(row, loaded, op).0;
            && after.status == (match op
                                case ChangePasswordOp(_, _, _, _) => row.status
                                case UpdateStatusOp(status) => status
                                case _ => loaded.status)
            && after.fullName == (match op
                                  case ChangePasswordOp(_, _, _, _) => row.fullName
                                  case UpdateNameOp(name) => TrimSpace(name)
                                  case _ => loaded.fullName)
            && (after.hash, after.previous0, after.previous1) ==
               (if op.ChangePasswordOp? then (Hashed(op.next, op.salt), loaded.hash, loaded.previous0)
                else (loaded.hash, loaded.previous0, loaded.previous1))
  {
    StoredVersion(row, loaded, op);
    hide ValidPattern, Reused, TrimSpace;
  }

  // The version falls exactly when the request passes its checks and more
  // revocations happened in between than it makes itself.
  lemma StaleStoreFallsIff(loaded: Account, between: seq<Op>, op: Op)
    requires ValidRow(loaded) && !op.SignInOp? && !op.RefreshOp?
    ensures var row := Run(loaded, between);
            StoreOver(row, loaded, op).0.tokenVersion < row.tokenVersion
            <==> CanStore(loaded, op) && Revocations(loaded, between) > Revoking(op)
  {
    VersionCountsRevocations(loaded, between);
    StoredVersion(Run(loaded, between), loaded, op);
    hide StoreOver, CanStore;
  }

  // So signing out everywhere while a rename is on its way can be undone by it: the
  // old refresh token is good again.
  lemma RenameUndoesSignOut(row: Account, name: string)
    requires ValidRow(row) && row.status == Active && row.tokenVersion < INT32_MAX && TrimSpace(name) != ""
    ensures var signedOut := Step(row, SignOutAllOp).0;
            && Step(signedOut, RefreshOp(row.tokenVersion)).1 == Refused(InvalidCredentials)
            && Step(StoreOver(signedOut, row, UpdateNameOp(name)).0, RefreshOp(row.tokenVersion)).1 == Issued(row.tokenVersion)
  {
  }

  // The last n passwords of a history, or all of a shorter one.
  function Last(past: seq<string>, n: nat): seq<string> {
    if |past| <= n then past else past[|past| - n..]
  }

  lemma ReusedIff(past: seq<string>, row: Account, password: string)
    requires Recorded(past, row)
    ensures Reused(row, password) <==> password in Last(past, 3)
  {
    var n := |past|;
    if password in Last(past, 3) {
      var k :| 0 <= k < |Last(past, 3)| && Last(past, 3)[k] == password;
      assert password == past[n - 1] || (n > 1 && password == past[n - 2]) || (n > 2 && password == past[n - 3]);
    }
    assert past[n - 1] in Last(past, 3) && (n > 1 ==> past[n - 2] in Last(past, 3)) && (n > 2 ==> past[n - 3] in Last(past, 3));
  }

  lemma OneMoreDistinct(past: seq<string>, password: string)
    requires FourDistinct(past)
    ensures FourDistinct(past + [password]) <==> password !in Last(past, 3)
  {
    var now, n := past + [password], |past|;
    if password in Last(past, 3) {
      var k :| 0 <= k < |Last(past, 3)| && Last(past, 3)[k] == password;
      var i := if n <= 3 then k else n - 3 + k;
      assert now[i] == password == now[n] && i < n <= i + 3;
    } else {
      forall i, j | 0 <= i < j < |now| && j <= i + 3
        ensures now[i] != now[j]
      {
        if j == n {
          assert past[i] == Last(past, 3)[if n <= 3 then i else i - (n - 3)];
        }
      }
    }
  }

  // Two rows remember the same history exactly when their histories end alike.
  lemma RecordedIff(past: seq<string>, now: seq<string>, row: Account)
    requires Recorded(past, row) && past <= now
    ensures Recorded(now, row) <==> Last(now, 3) == Last(past, 3)
  {
    var m, n := |past|, |now|;
    if Recorded(now, row) {
      assert m < 3 ==> n == m;
      assert |Last(now, 3)| == |Last(past, 3)|;
      forall k | 0 <= k < |Last(past, 3)|
        ensures Last(now, 3)[k] == Last(past, 3)[k]
      {
        var back := |Last(past, 3)| - 1 - k;
        assert back == 0 || back == 1 || back == 2;
        assert Last(now, 3)[k] == now[n - 1 - back] && Last(past, 3)[k] == past[m - 1 - back];
      }
    }
    if Last(now, 3) == Last(past, 3) {
      assert |Last(now, 3)| == |Last(past, 3)|;
      assert now[n - 1] == Last(now, 3)[|Last(now, 3)| - 1] && past[m - 1] == Last(past, 3)[|Last(past, 3)| - 1];
      assert m > 1 ==> now[n - 2] == Last(now, 3)[|Last(now, 3)| - 2] && past[m - 2] == Last(past, 3)[|Last(past, 3)| - 2];
      assert m > 2 ==> now[n - 3] == Last(now, 3)[0] && past[m - 3] == Last(past, 3)[0];
    }
  }

  lemma {:induction false} HistoryGrows(past: seq<string>, row: Account, ops: seq<Op>)
    ensures past <= Passwords(past, row, ops)
    decreases ops
  {
    if ops != [] {
      var (next, response) := Step(row, ops[0]);
      HistoryGrows(if ops[0].ChangePasswordOp? && response.Done? then past + [ops[0].next] else past, next, ops[1..]);
    }
  }

  // A rename, a status change or a sign-out writes the password columns too, as they
  // were when it loaded the row. The row is then out of step with the passwords that
  // were really set exactly when the last three have changed in between, and the
  // password that counts is the one from before.
  lemma StaleStoreRevertsIff(past: seq<string>, loaded: Account, between: seq<Op>, op: Op)
    requires ValidRow(loaded) && Recorded(past, loaded) && FourDistinct(past)
    requires op.SignOutAllOp? || op.UpdateNameOp? || op.UpdateStatusOp?
    ensures var now := Passwords(past, loaded, between);
            var after := StoreOver(Run(loaded, between), loaded, op).0;
            && now != []
            && (Recorded(now, after) <==> !CanStore(loaded, op) || Last(now, 3) == Last(past, 3))
            && (!Matches(after.hash, now[|now| - 1]) <==> CanStore(loaded, op) && now[|now| - 1] != past[|past| - 1])
            && (CanStore(loaded, op) ==> Matches(after.hash, past[|past| - 1]))
  {
    var row := Run(loaded, between);
    var after := StoreOver(row, loaded, op).0;
    RunRecords(past, loaded, between);
    HistoryGrows(past, loaded, between);
    StoredVersion(row, loaded, op);
    if CanStore(loaded, op) {
      assert after.hash == loaded.hash && after.previous0 == loaded.previous0 && after.previous1 == loaded.previous1;
      RecordedIff(past, Passwords(past, loaded, between), after);
    }
  }

  // After such a store a change is accepted that repeats one of the last three
  // passwords exactly when it repeats one that was set in between and that the
  // loaded row did not remember.
  lemma EarlyReuseIff(
    past: seq<string>, loaded: Account, between: seq<Op>, op: Op, current: string, next: string, signOutAll: bool, salt: nat)
    requires ValidRow(loaded) && Recorded(past, loaded) && FourDistinct(past)
    requires op.SignOutAllOp? || op.UpdateNameOp? || op.UpdateStatusOp?
    ensures var now := Passwords(past, loaded, between);
            var after := StoreOver(Run(loaded, between), loaded, op).0;
            Step(after, ChangePasswordOp(current, next, signOutAll, salt)).1.Done? && !FourDistinct(now + [next]) <==>
              && CanStore(loaded, op)
              && ValidPattern(next)
              && current == past[|past| - 1]
              && next in Last(now, 3) && next !in Last(past, 3)
              && (signOutAll ==> loaded.tokenVersion + Revoking(op) < INT32_MAX)
  {
    var row, now := Run(loaded, between), Passwords(past, loaded, between);
    var after := StoreOver(row, loaded, op).0;
    RunRecords(past, loaded, between);
    RunKeepsValid(loaded, between);
    OneMoreDistinct(now, next);
    StoredVersion(row, loaded, op);
    assert ValidRow(after);
    StoredVersion(after, after, ChangePasswordOp(current, next, signOutAll, salt));
    if CanStore(loaded, op) {
      assert after.hash == loaded.hash && after.previous0 == loaded.previous0 && after.previous1 == loaded.previous1;
      ReusedIff(past, after, next);
    } else {
      ReusedIff(now, after, next);
    }
    hide StoreOver, FourDistinct, ValidPattern, Reused, Run, Passwords;
  }

  // Two password changes that interleave: the later store checks only the row it
  // loaded, and forgets the other change.
  lemma StaleChangeIff(past: seq<string>, loaded: Account, between: seq<Op>, op: Op)
    requires ValidRow(loaded) && Recorded(past, loaded) && FourDistinct(past) && op.ChangePasswordOp?
    ensures var row := Run(loaded, between);
            var now := Passwords(past, loaded, between);
            var (after, response) := StoreOver(row, loaded, op);
            var whole := if response.Done? then now + [op.next] else now;
            && (FourDistinct(whole) <==> !(CanStore(loaded, op) && Reused(row, op.next)))
            && (Recorded(whole, after) <==> !CanStore(loaded, op) || Last(now, 2) == Last(past, 2))
  {
    var row, now := Run(loaded, between), Passwords(past, loaded, between);
    var after := StoreOver(row, loaded, op).0;
    RunRecords(past, loaded, between);
    HistoryGrows(past, loaded, between);
    StoredVersion(row, loaded, op);
    if CanStore(loaded, op) {
      OneMoreDistinct(now, op.next);
      ReusedIff(now, row, op.next);
      RemembersTwo(past, now, loaded, after, op.next);
    }
    hide Run, Passwords;
  }

  lemma LastTwo(past: seq<string>)
    requires past != []
    ensures Last(past, 2) == if |past| == 1 then [past[0]] else [past[|past| - 2], past[|past| - 1]]
  {
  }

  lemma LastTwoAgree(past: seq<string>, now: seq<string>)
    requires past != [] && past <= now
    ensures Last(now, 2) == Last(past, 2) <==>
              && (|past| == 1 ==> |now| == 1)
              && now[|now| - 1] == past[|past| - 1]
              && (|past| > 1 ==> now[|now| - 2] == past[|past| - 2])
  {
    LastTwo(past);
    LastTwo(now);
    hide Last;
  }

  lemma RemembersTwo(past: seq<string>, now: seq<string>, loaded: Account, after: Account, next: string)
    requires Recorded(past, loaded) && past <= now
    requires after.hash.Hashed? && after.hash.password == next
    requires after.previous0 == loaded.hash && after.previous1 == loaded.previous0
    ensures Recorded(now + [next], after) <==> Last(now, 2) == Last(past, 2)
  {
    LastTwoAgree(past, now);
    hide Last;
    var whole, n := now + [next], |now|;
    assert |whole| == n + 1 && whole[n] == next && whole[n - 1] == now[n - 1] && (n > 1 ==> whole[n - 2] == now[n - 2]);
  }
}
