/**
  The tables as mutable state: each statement changes one table, each transaction runs statements
  and rolls back on failure.
 */
module AuthTransactions {
  import opened Wrappers
  import opened AuthStore
  import opened AuthEffects

  class Tables {
    var users: map<UserId, User>
    var passkeys: map<PasskeyId, UserId>
    var challenges: map<ChallengeId, Challenge>
    var totp: map<UserId, Totp>
    var clock: Stamp
    var nextPasskey: PasskeyId
    var nextChallenge: ChallengeId

    constructor ()
      ensures Contents() == Database(map[], map[], map[], map[], 0, 0, 0)
    {
      users, passkeys, challenges, totp := map[], map[], map[], map[];
      clock, nextPasskey, nextChallenge := 0, 0, 0;
    }

    function Contents(): Database
      reads this
    {
      Database(users, passkeys, challenges, totp, clock, nextPasskey, nextChallenge)
    }

    method Rollback(saved: Database)
      modifies this
      ensures Contents() == saved
    {
      users, passkeys, challenges, totp := saved.users, saved.passkeys, saved.challenges, saved.totp;
      clock, nextPasskey, nextChallenge := saved.clock, saved.nextPasskey, saved.nextChallenge;
    }

    /** The state of the tables after a statement or transaction with this specified result. */
    ghost predicate Runs(before: Database, specified: Result<Database, Error>, failure: Option<Error>)
      reads this
    {
      match specified
      case Ok(after) => failure.None? && Contents() == after
      case Err(error) => failure == Some(error) && Contents() == before
    }

    // -------------------------------------------------------------- statements

    /** The row an update leaves: each column is kept unless a change is given for it. */
    method ApplyChanges(row: User, changes: Changes) returns (changed: User)
      ensures changed == Changed(row, changes, clock)
    {
      changed := row.(updatedAt := clock);
      if changes.role.Some? { changed := changed.(role := changes.role.value); }
      if changes.passwordHash.Some? { changed := changed.(passwordHash := changes.passwordHash.value); }
      if changes.passwordEnabled.Some? { changed := changed.(passwordEnabled := changes.passwordEnabled.value); }
      if changes.totpRequired.Some? { changed := changed.(totpRequired := changes.totpRequired.value); }
    }

    method UpdateUser(id: UserId, expected: Stamp, changes: Changes) returns (failure: Option<Error>)
      modifies this`users, this`clock
      ensures Runs(old(Contents()), UserUpdated(old(Contents()), id, expected, changes), failure)
      ensures failure.None? <==> id in old(users) && old(users)[id].updatedAt == expected
      ensures failure.None? ==>
                && OtherUsersKept(old(users), users, id) && ColumnsGiven(old(users)[id], users[id], changes)
                && users[id].updatedAt == old(clock)
    {
      if id !in users || users[id].updatedAt != expected {
        return Some(Conflict);
      }
      var changed := ApplyChanges(users[id], changes);
      users := users[id := changed];
      clock := clock + 1;
      return None;
    }

    method SetUserDisabled(id: UserId, expected: Stamp, disabled: bool) returns (failure: Option<Error>)
      modifies this`users, this`clock
      ensures Runs(old(Contents()), UserDisabled(old(Contents()), id, expected, disabled), failure)
      ensures failure.None? <==> id in old(users) && old(users)[id].updatedAt == expected
      ensures failure.None? ==>
                users == old(users)[id := old(users)[id].(disabled := disabled, updatedAt := old(clock))]
    {
      if id !in users || users[id].updatedAt != expected {
        return Some(Conflict);
      }
      users := users[id := users[id].(disabled := disabled, updatedAt := clock)];
      clock := clock + 1;
      return None;
    }

    method InsertUser(id: UserId, user: User) returns (failure: Option<Error>)
      modifies this`users, this`clock
      ensures Runs(old(Contents()), UserInserted(old(Contents()), id, user), failure)
    {
      if id in users {
        return Some(Conflict);
      }
      users := users[id := user.(updatedAt := clock)];
      clock := clock + 1;
      return None;
    }

    method InsertPasskey(user: UserId) returns (failure: Option<Error>)
      modifies this`passkeys, this`nextPasskey
      ensures Runs(old(Contents()), PasskeyInserted(old(Contents()), user), failure)
    {
      if user !in users {
        return Some(Conflict);
      }
      passkeys := passkeys[nextPasskey := user];
      nextPasskey := nextPasskey + 1;
      return None;
    }

    method InsertChallenge(challenge: Challenge) returns (failure: Option<Error>)
      modifies this`challenges, this`nextChallenge
      ensures Runs(old(Contents()), ChallengeInserted(old(Contents()), challenge), failure)
    {
      if challenge.user.Some? && challenge.user.value !in users {
        return Some(Conflict);
      }
      if challenge.parent.Some? && challenge.parent.value !in challenges {
        return Some(Conflict);
      }
      challenges := challenges[nextChallenge := challenge.(attempts := 0)];
      nextChallenge := nextChallenge + 1;
      return None;
    }

    method DeleteChallenge(id: ChallengeId) returns (failure: Option<Error>)
      modifies this`challenges
      ensures Runs(old(Contents()), ChallengeDeleted(old(Contents()), id), failure)
    {
      if id !in challenges {
        return Some(NotFound);
      }
      challenges := Remaining(challenges, {id});
      return None;
    }

    method DeleteChallengesForUser(user: UserId, kind: Kind)
      modifies this`challenges
      ensures Contents() == WithoutKind(old(Contents()), user, kind)
    {
      challenges := Remaining(challenges, ChallengesOf(Contents(), user, kind));
    }

    method ConfirmTotpCredential(user: UserId, step: int) returns (failure: Option<Error>)
      modifies this`totp
      ensures Runs(old(Contents()), TotpConfirmed(old(Contents()), user, step), failure)
    {
      if user !in totp || totp[user].confirmed {
        return Some(Conflict);
      }
      totp := totp[user := totp[user].(confirmed := true, last := Some(step))];
      return None;
    }

    method AcceptTotpTimestep(user: UserId, step: int) returns (accepted: bool)
      modifies this`totp
      ensures accepted == Acceptable(old(Contents()), user, step)
      ensures Contents() == if accepted then StepAccepted(old(Contents()), user, step).value else old(Contents())
    {
      accepted := user in totp && totp[user].confirmed && (totp[user].last.None? || totp[user].last.value < step);
      if accepted {
        totp := totp[user := totp[user].(last := Some(step))];
      }
    }

    // -------------------------------------------------------------- transactions

    /** The transaction shared by `UpdateUser`, `SetPassword` and `DeletePassword`. */
    method CommitUserChange(user: UserId, before: User, changes: Changes, security: bool)
      returns (failure: Option<Error>)
      modifies this
      ensures Runs(old(Contents()), Executed(old(Contents()), Tx.ChangeUser(user, before, changes, security)), failure)
      ensures failure.None? ==>
                ChangesUser(old(Contents()), Contents(), Tx.ChangeUser(user, before, changes, security))
    {
      ghost var tx := Tx.ChangeUser(user, before, changes, security);
      if Executed(Contents(), tx).Ok? {
        CommitLeaves(Contents(), tx, Executed(Contents(), tx).value);
      }
      if Demotes(before, changes) {
        var count := |ActiveAdmins(Contents())|;
        if count <= 1 {
          return Some(LastAdmin);
        }
      }
      failure := UpdateUser(user, before.updatedAt, changes);
      if failure.None? && security {
        DeleteChallengesForUser(user, PendingTotp);
      }
    }

    method CommitUserDisabled(user: UserId, before: User, disabled: bool) returns (failure: Option<Error>)
      modifies this
      ensures Runs(old(Contents()), Executed(old(Contents()), Tx.SetDisabled(user, before, disabled)), failure)
      ensures failure.None? ==> SetsDisabled(old(Contents()), Contents(), Tx.SetDisabled(user, before, disabled))
    {
      ghost var tx := Tx.SetDisabled(user, before, disabled);
      if Executed(Contents(), tx).Ok? {
        CommitLeaves(Contents(), tx, Executed(Contents(), tx).value);
      }
      if disabled && before.role == Admin && !before.disabled {
        var count := |ActiveAdmins(Contents())|;
        if count <= 1 {
          return Some(LastAdmin);
        }
      }
      failure := SetUserDisabled(user, before.updatedAt, disabled);
      if failure.None? && disabled {
        var kinds := [PendingTotp, EnrollmentGrant, EnrollmentRegistration];
        ghost var updated := Contents();
        for i := 0 to |kinds|
          invariant Contents() == if i == 0 then updated
                                  else if i == 1 then WithoutKind(updated, user, PendingTotp)
                                  else if i == 2 then
                                    WithoutKind(WithoutKind(updated, user, PendingTotp), user, EnrollmentGrant)
                                  else Disarmed(updated, user)
        {
          DeleteChallengesForUser(user, kinds[i]);
        }
      }
    }

    /** Reads, counts, deletes and bumps the user's stamp, all in one transaction. */
    method CommitPasskeyDeletion(user: UserId, passkey: PasskeyId, passwordLogin: bool) returns (failure: Option<Error>)
      modifies this
      ensures Runs(old(Contents()), Executed(old(Contents()), Tx.DeletePasskey(user, passkey, passwordLogin)), failure)
    {
      var saved := Contents();
      if user !in users {
        return Some(NotFound);
      }
      var row := users[user];
      var count := |PasskeysOf(saved, user)|;
      if count <= 1 && !PasswordUsable(row, passwordLogin) {
        return Some(LastAuthentication);
      }
      if passkey !in passkeys || passkeys[passkey] != user {
        return Some(NotFound);
      }
      passkeys := passkeys - {passkey};
      failure := UpdateUser(user, row.updatedAt, NO_CHANGES);
      DeleteChallengesForUser(user, PendingTotp);
    }

    method CommitEnrollment(user: UserId, grant: ChallengeId) returns (failure: Option<Error>)
      modifies this
      ensures Runs(old(Contents()), Executed(old(Contents()), Tx.Enroll(user, grant)), failure)
    {
      var saved := Contents();
      failure := DeleteChallenge(grant);
      if failure.Some? {
        return Some(InvalidCredentials);
      }
      failure := InsertPasskey(user);
      if failure.Some? {
        Rollback(saved);
      }
    }

    method CommitGrant(user: UserId) returns (failure: Option<Error>)
      modifies this
      ensures Runs(old(Contents()), Executed(old(Contents()), Tx.IssueGrant(user)), failure)
    {
      var saved := Contents();
      DeleteChallengesForUser(user, EnrollmentGrant);
      failure := InsertChallenge(Challenge(EnrollmentGrant, Some(user), None, 0));
      if failure.Some? {
        Rollback(saved);
      }
    }

    method CommitCreateUser(user: UserId, role: Role, password: Option<nat>) returns (failure: Option<Error>)
      modifies this
      ensures Runs(old(Contents()), Executed(old(Contents()), Tx.CreateUser(user, role, password)), failure)
    {
      var saved := Contents();
      failure := InsertUser(user, NewUser(role, password));
      if failure.None? {
        failure := InsertChallenge(Challenge(EnrollmentGrant, Some(user), None, 0));
        if failure.Some? {
          Rollback(saved);
        }
      }
    }

    /** With a password the user is inserted alone, otherwise with the registered passkey. */
    method CommitBootstrap(user: UserId, password: Option<nat>) returns (failure: Option<Error>)
      modifies this
      ensures Runs(old(Contents()), Executed(old(Contents()), Tx.Bootstrap(user, password)), failure)
    {
      if |users| != 0 {
        return Some(BootstrapUnavailable);
      }
      failure := InsertUser(user, NewUser(Admin, password));
      if failure.None? && password.None? {
        failure := InsertPasskey(user);
      }
    }

    method CommitTotpConfirmation(user: UserId, before: User, step: int) returns (failure: Option<Error>)
      modifies this
      ensures Runs(old(Contents()), Executed(old(Contents()), Tx.ConfirmTotp(user, before, step)), failure)
    {
      var saved := Contents();
      failure := ConfirmTotpCredential(user, step);
      if failure.None? {
        failure := UpdateUser(user, before.updatedAt, NO_CHANGES.(totpRequired := Some(true)));
        if failure.Some? {
          Rollback(saved);
        } else {
          DeleteChallengesForUser(user, PendingTotp);
        }
      }
    }

    method CommitTotpDeletion(user: UserId, before: User) returns (failure: Option<Error>)
      modifies this
      ensures Runs(old(Contents()), Executed(old(Contents()), Tx.DropTotp(user, before)), failure)
    {
      var saved := Contents();
      if user !in totp {
        return Some(NotFound);
      }
      totp := totp - {user};
      failure := UpdateUser(user, before.updatedAt, NO_CHANGES.(totpRequired := Some(false)));
      if failure.Some? {
        Rollback(saved);
      } else {
        DeleteChallengesForUser(user, PendingTotp);
      }
    }

    method CommitTotpLogin(user: UserId, challenge: ChallengeId, step: int) returns (failure: Option<Error>)
      modifies this
      ensures Runs(old(Contents()), Executed(old(Contents()), Tx.AcceptStep(user, challenge, step)), failure)
    {
      var saved := Contents();
      var accepted := AcceptTotpTimestep(user, step);
      if !accepted {
        return Some(InvalidCredentials);
      }
      failure := DeleteChallenge(challenge);
      if failure.Some? {
        Rollback(saved);
        return Some(InvalidCredentials);
      }
    }
  }
}
