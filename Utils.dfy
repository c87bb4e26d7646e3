/** The password helpers. The digest function (SHA-256 in hex) is the
    parameter `hash`; being a function, it gives equal digests for equal
    passwords. Only row 1 of `users` holds a password. */
module Utils {
  import opened Common
  import opened Storage
  import opened Schema

  // ---------------------------------------------------------------------------
  // validate_password

  const MinLength := 8
  const SpecialChars := "!@#$%^&*(),.?\":{}|<>"

  const TooShort := "密码长度需至少8位"
  const NoLetter := "密码需包含字母"
  const NoDigit := "密码需包含数字"
  const NoSpecial := "密码需包含特殊字符"
  const Strong := "密码强度：强"

  predicate IsLetter(c: char) {
    'A' <= c <= 'Z' || 'a' <= c <= 'z'
  }

  predicate HasLetter(p: string) {
    exists i :: 0 <= i < |p| && IsLetter(p[i])
  }

  predicate HasDigit(p: string) {
    exists i :: 0 <= i < |p| && IsDigit(p[i])
  }

  predicate HasSpecial(p: string) {
    exists i :: 0 <= i < |p| && p[i] in SpecialChars
  }

  /** The strength rule: at least eight characters, a letter, a digit and a
      special character, checked in that order; the message names the first
      rule broken. */
  function ValidatePassword(p: string): (r: (bool, string))
    ensures r.0 <==> |p| >= MinLength && HasLetter(p) && HasDigit(p) && HasSpecial(p)
    ensures r.0 ==> r.1 == Strong
    ensures |p| < MinLength ==> r.1 == TooShort
    ensures |p| >= MinLength && !HasLetter(p) ==> r.1 == NoLetter
    ensures |p| >= MinLength && HasLetter(p) && !HasDigit(p) ==> r.1 == NoDigit
    ensures |p| >= MinLength && HasLetter(p) && HasDigit(p) && !HasSpecial(p) ==> r.1 == NoSpecial
  {
    if |p| < MinLength then (false, TooShort)
    else if !HasLetter(p) then (false, NoLetter)
    else if !HasDigit(p) then (false, NoDigit)
    else if !HasSpecial(p) then (false, NoSpecial)
    else (true, Strong)
  }

  /** Every message belongs to exactly one outcome: the strong message only
      to an accepted password. */
  lemma ValidateMessageDecides(p: string, q: string)
    requires ValidatePassword(p).1 == ValidatePassword(q).1
    ensures ValidatePassword(p).0 == ValidatePassword(q).0
  {
    assert Strong != TooShort && Strong != NoLetter && Strong != NoDigit && Strong != NoSpecial;
  }

  /** The password seeded at start-up does not pass the strength rule. */
  lemma DefaultPasswordIsWeak()
    ensures ValidatePassword(DefaultPassword) == (false, TooShort)
  {
  }

  /** A password the rule accepts, with one of each kind of character. */
  lemma StrongExample()
    ensures ValidatePassword("Abcdef1!") == (true, Strong)
  {
    var p := "Abcdef1!";
    assert IsLetter(p[0]) && IsDigit(p[6]) && p[7] in SpecialChars;
  }

  // ---------------------------------------------------------------------------
  // check_password and save_password

  /** Row 1 exists and its stored digest is the digest of `input`. */
  predicate Accepts(users: Option<UserRow>, hash: string -> string, input: string) {
    users.Some? && users.value.passwordHash == Some(hash(input))
  }

  /** `check_password`: false when the table or the row is missing or the
      digests differ (a missing table raises, and the error reads as false). */
  function CheckPassword(db: Store, hash: string -> string, input: string): (ok: bool)
    reads db
    ensures ok ==> Users in db.schema && Accepts(db.users, hash, input)
    ensures db.Valid() ==> (ok <==> Accepts(db.users, hash, input))
  {
    Users in db.schema && Accepts(db.users, hash, input)
  }

  const NoUsersTable := "no such table: users"

  /** `save_password`: row 1 takes the new digest, or is inserted with it
      (and the column default for `password_enabled`) when missing; without
      a `users` table the statement fails and nothing changes. */
  method SavePassword(db: Store, hash: string -> string, password: string) returns (fault: Option<string>)
    requires db.Valid()
    modifies db
    ensures db.Valid()
    ensures db.schema == old(db.schema) && db.personnel == old(db.personnel) && db.talentPool == old(db.talentPool)
    ensures db.operationLog == old(db.operationLog)
    ensures db.nextPersonId == old(db.nextPersonId) && db.nextPoolId == old(db.nextPoolId)
    ensures Users !in old(db.schema) ==> fault == Some(NoUsersTable) && db.users == old(db.users)
    ensures Users in old(db.schema) ==>
      && fault == None
      && db.users.Some? && db.users.value.passwordHash == Some(hash(password))
      && (old(db.users).Some? ==> db.users.value.passwordEnabled == old(db.users).value.passwordEnabled)
      && (old(db.users).None? ==>
            db.users.value.passwordEnabled == if "password_enabled" in db.schema[Users] then Some(1) else None)
    ensures Users in old(db.schema) ==> forall q :: CheckPassword(db, hash, q) <==> hash(q) == hash(password)
  {
    if Users !in db.schema {
      return Some(NoUsersTable);
    }
    var digest := hash(password);
    if db.users.Some? {
      db.users := Some(db.users.value.(passwordHash := Some(digest)));
    } else {
      var enabled := if "password_enabled" in db.schema[Users] then Some(1) else None;
      db.users := Some(UserRow(Some(digest), enabled));
    }
    return None;
  }

  /** A fresh store accepts the default password after start-up. */
  lemma StartupAcceptsDefault(s: Setup, hash: string -> string)
    requires s.users.None?
    ensures Users in Startup(s, hash).schema
    ensures Accepts(Startup(s, hash).users, hash, DefaultPassword)
  {
  }

  /** Start-up never changes which passwords are accepted on a store that has row 1. */
  lemma StartupKeepsAccepted(s: Setup, hash: string -> string, input: string)
    requires s.users.Some?
    ensures Accepts(Startup(s, hash).users, hash, input) <==> Accepts(s.users, hash, input)
  {
    StartupKeepsPassword(s, hash);
  }
}
