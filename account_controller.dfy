/**
 * The account-security rules of `AccountController`: how typed codes are cleaned, the
 * `otpauth` provisioning URI, the two-factor set-up, disable and recovery-code actions,
 * the fallback path of the two-factor login, and the forced password change.
 *
 * The identity library's user manager is represented by what it does to the user row:
 * TOTP verification is the function `totp(key, code)`; a fresh authenticator key, a
 * fresh security stamp and the hash of a new password are values passed in; and the i-th
 * new recovery code is `newCode(i)`. Every user-manager call that issues a new security
 * stamp (`ResetAuthenticatorKeyAsync`, `SetTwoFactorEnabledAsync`, `ResetPasswordAsync`,
 * `UpdateSecurityStampAsync`) gives the row the stamp passed in.
 * The signed-in principal is `Some(id)` of a user id, or `None` when there is none.
 */
module AccountController {
  import opened Wrappers
  import opened Text
  import opened Domain
  import opened DbContext
  import opened AccountLockoutService
  import opened RequestGates
  import opened Collections

  const Issuer := "AirlineManager"
  const RecoveryCodeCount := 10
  const NotAuthenticated := "Not authenticated"

  type Totp = (string, string) -> bool

  // ---------------------------------------------------------------- typed codes

  /** `code?.Replace(" ", "").Replace("-", "") ?? ""`, used for authenticator codes. */
  function NormalizeAuthenticatorCode(code: Option<string>): (r: string)
    ensures ' ' !in r && '-' !in r
    ensures forall d :: d != ' ' && d != '-' ==> multiset(r)[d] == multiset(code.GetOr(""))[d]
  {
    var spaceless := RemoveChar(code.GetOr(""), ' ');
    assert ' ' !in spaceless;
    RemoveChar(spaceless, '-')
  }

  /** `code?.Replace(" ", "") ?? ""`, used for recovery codes: hyphens stay. */
  function NormalizeRecoveryCode(code: Option<string>): (r: string)
    ensures ' ' !in r
    ensures forall d :: d != ' ' ==> multiset(r)[d] == multiset(code.GetOr(""))[d]
  {
    RemoveChar(code.GetOr(""), ' ')
  }

  /** Cleaning a code that is already clean changes nothing, so cleaning twice is cleaning once. */
  lemma NormalizeIdempotent(code: Option<string>)
    ensures NormalizeAuthenticatorCode(Some(NormalizeAuthenticatorCode(code))) == NormalizeAuthenticatorCode(code)
    ensures NormalizeRecoveryCode(Some(NormalizeRecoveryCode(code))) == NormalizeRecoveryCode(code)
  {
    var r := NormalizeAuthenticatorCode(code);
    RemoveCharAbsent(r, ' ');
    RemoveCharAbsent(r, '-');
    RemoveCharAbsent(NormalizeRecoveryCode(code), ' ');
  }

  /** Cleaning goes group by group: "123 456" and "123-456" both read as "123456". */
  lemma NormalizeByGroups(a: string, b: string)
    requires ' ' !in a && '-' !in a && ' ' !in b && '-' !in b
    ensures NormalizeAuthenticatorCode(Some(a + " " + b)) == a + b
    ensures NormalizeAuthenticatorCode(Some(a + "-" + b)) == a + b
  {
    assert RemoveChar(" ", ' ') == [] && RemoveChar("-", '-') == [];
    assert ' ' !in "-";
    RemoveCharAbsent(a, ' ');
    RemoveCharAbsent(b, ' ');
    RemoveCharAbsent(a, '-');
    RemoveCharAbsent(b, '-');
    RemoveCharAbsent(a + b, '-');
    RemoveCharAppend(a + " ", b, ' ');
    RemoveCharAppend(a, " ", ' ');
    assert a + [] == a;
    RemoveCharAbsent(a + "-" + b, ' ');
    RemoveCharAppend(a + "-", b, '-');
    RemoveCharAppend(a, "-", '-');
  }

  // ---------------------------------------------------------------- provisioning URI

  /** `GenerateQrCodeUri`, with `enc` standing for `UrlEncoder.Default.Encode`. */
  function GenerateQrCodeUri(enc: string -> string, email: string, unformattedKey: string): (r: string)
    ensures StartsWith(r, "otpauth://totp/")
  {
    var uri := "otpauth://totp/" + enc(Issuer) + ":" + enc(email) + "?secret=" + unformattedKey
               + "&issuer=" + enc(Issuer) + "&digits=6";
    assert uri[..15] == "otpauth://totp/";
    uri
  }

  function UriHead(enc: string -> string): string {
    "otpauth://totp/" + enc(Issuer) + ":"
  }

  function UriTail(enc: string -> string): string {
    "&issuer=" + enc(Issuer) + "&digits=6"
  }

  /** The URI is a fixed head, the encoded account, "?secret=", the key and a fixed tail. */
  lemma UriShape(enc: string -> string, email: string, key: string)
    ensures GenerateQrCodeUri(enc, email, key) == UriHead(enc) + (enc(email) + ("?secret=" + (key + UriTail(enc))))
  {
  }

  /** In a word free of '?' followed by text starting with '?', the first '?' ends the word. */
  lemma FirstQuestionMark(a: string, x: string)
    requires '?' !in a && x != [] && x[0] == '?'
    ensures forall i :: 0 <= i < |a| ==> (a + x)[i] != '?'
    ensures (a + x)[|a|] == '?'
  {
    assert forall i :: 0 <= i < |a| ==> (a + x)[i] == a[i];
  }

  /** Two words free of '?', each followed by text starting with '?', split the same way. */
  lemma SplitAtQuestionMark(a1: string, x1: string, a2: string, x2: string)
    requires '?' !in a1 && '?' !in a2
    requires x1 != [] && x1[0] == '?' && x2 != [] && x2[0] == '?'
    requires a1 + x1 == a2 + x2
    ensures a1 == a2 && x1 == x2
  {
    var t := a1 + x1;
    FirstQuestionMark(a1, x1);
    FirstQuestionMark(a2, x2);
    assert |a1| == |a2|;
    assert a1 == t[..|a1|] && a2 == (a2 + x2)[..|a2|];
    assert x1 == t[|a1|..] && x2 == (a2 + x2)[|a2|..];
  }

  lemma CancelPrefix(p: string, x1: string, x2: string)
    requires p + x1 == p + x2
    ensures x1 == x2
  {
    assert x1 == (p + x1)[|p|..] && x2 == (p + x2)[|p|..];
  }

  lemma CancelSuffix(x1: string, x2: string, s: string)
    requires x1 + s == x2 + s
    ensures x1 == x2
  {
    assert x1 == (x1 + s)[..|x1|];
    assert x2 == (x2 + s)[..|x2|];
  }

  /**
   * The URI round-trips: as URL encoding never yields '?', two equal URIs have the same
   * encoded account name and the same secret, so an authenticator app reads back the key
   * and account it was given.
   */
  lemma QrCodeUriDetermines(enc: string -> string, email1: string, key1: string, email2: string, key2: string)
    requires '?' !in enc(email1) && '?' !in enc(email2)
    requires GenerateQrCodeUri(enc, email1, key1) == GenerateQrCodeUri(enc, email2, key2)
    ensures enc(email1) == enc(email2) && key1 == key2
  {
    var p, q, s := UriHead(enc), "?secret=", UriTail(enc);
    UriShape(enc, email1, key1);
    UriShape(enc, email2, key2);
    var x1, x2 := q + (key1 + s), q + (key2 + s);
    CancelPrefix(p, enc(email1) + x1, enc(email2) + x2);
    SplitAtQuestionMark(enc(email1), x1, enc(email2), x2);
    CancelPrefix(q, key1 + s, key2 + s);
    CancelSuffix(key1, key2, s);
  }

  // ---------------------------------------------------------------- the user manager's effects

  /** `ResetAuthenticatorKeyAsync`: a new key and a new security stamp. */
  function ResetAuthenticatorKey(u: ApplicationUser, newKey: string, newStamp: string): (v: ApplicationUser)
    ensures v.authenticatorKey == Some(newKey) && v.securityStamp == newStamp
    ensures v == u.(authenticatorKey := Some(newKey), securityStamp := newStamp)
  {
    u.(authenticatorKey := Some(newKey), securityStamp := newStamp)
  }

  /** The `count` codes `GenerateNewTwoFactorRecoveryCodesAsync` issues. */
  function NewRecoveryCodes(newCode: nat -> string, count: nat): (codes: seq<string>)
    ensures |codes| == count
    ensures forall i :: 0 <= i < count ==> codes[i] == newCode(i)
  {
    seq(count, i requires 0 <= i < count => newCode(i))
  }

  /** `VerifyTwoFactorTokenAsync` with the authenticator provider: needs a stored key. */
  predicate CodeAccepted(u: ApplicationUser, code: string, totp: Totp) {
    u.authenticatorKey.Some? && totp(u.authenticatorKey.value, code)
  }

  /**
   * `AccessFailedAsync`: one more failure; reaching the limit sets the lockout end to now
   * plus the lockout period and resets the count.
   */
  function AccessFailed(u: ApplicationUser, options: LockoutOptions, now: int): (v: ApplicationUser)
    ensures u.accessFailedCount + 1 < options.maxFailedAccessAttempts ==>
      v == u.(accessFailedCount := u.accessFailedCount + 1)
    ensures u.accessFailedCount + 1 >= options.maxFailedAccessAttempts ==>
      v == u.(accessFailedCount := 0, lockoutEnd := Some(now + options.defaultLockoutSeconds))
  {
    var count := u.accessFailedCount + 1;
    if count < options.maxFailedAccessAttempts then u.(accessFailedCount := count)
    else u.(accessFailedCount := 0, lockoutEnd := Some(now + options.defaultLockoutSeconds))
  }

  /** `IsLockedOutAsync`: lockout applies to the user and its end is not yet past. */
  predicate IdentityLockedOut(u: ApplicationUser, now: int) {
    u.lockoutEnabled && u.lockoutEnd.Some? && u.lockoutEnd.value >= now
  }

  /** `n` wrong codes in a row at time `now`. */
  function Failures(u: ApplicationUser, options: LockoutOptions, now: int, n: nat): ApplicationUser {
    if n == 0 then u else AccessFailed(Failures(u, options, now, n - 1), options, now)
  }

  /**
   * With lockout on, a user without earlier failures is locked out by exactly the
   * configured number of wrong codes: fewer only count, that many set the lockout end.
   */
  lemma {:induction false} FailuresLockOut(u: ApplicationUser, options: LockoutOptions, now: int, n: nat)
    requires u.accessFailedCount == 0 && options.maxFailedAccessAttempts > 0
    requires n <= options.maxFailedAccessAttempts
    ensures n < options.maxFailedAccessAttempts ==>
      Failures(u, options, now, n) == u.(accessFailedCount := n)
    ensures n == options.maxFailedAccessAttempts ==>
      Failures(u, options, now, n) == u.(accessFailedCount := 0, lockoutEnd := Some(now + options.defaultLockoutSeconds))
  {
    if n > 0 {
      FailuresLockOut(u, options, now, n - 1);
    }
  }

  /** So a lockout-enabled user is locked out after that many wrong codes whenever the period is not negative. */
  lemma FailuresThenLockedOut(u: ApplicationUser, options: LockoutOptions, now: int)
    requires u.accessFailedCount == 0 && u.lockoutEnabled
    requires options.maxFailedAccessAttempts > 0 && options.defaultLockoutSeconds >= 0
    ensures IdentityLockedOut(Failures(u, options, now, options.maxFailedAccessAttempts), now)
  {
    FailuresLockOut(u, options, now, options.maxFailedAccessAttempts);
  }

  // ---------------------------------------------------------------- two-factor set-up

  datatype AuthenticatorSetup = AuthenticatorSetup(authenticatorUri: string, sharedKey: string)

  /**
   * `Generate2faAjax`: always resets the authenticator key first, then returns the new key
   * and its provisioning URI.
   */
  method Generate2fa(db: ApplicationDbContext, signedIn: Option<string>, newKey: string, newStamp: string,
                     enc: string -> string)
    returns (r: Result<AuthenticatorSetup, string>)
    requires db.Valid()
    modifies db`users
    ensures db.Valid()
    ensures signedIn.None? || signedIn.value !in old(db.users) ==>
      r == Err(NotAuthenticated) && db.users == old(db.users)
    ensures signedIn.Some? && signedIn.value in old(db.users) ==>
      var u := old(db.users)[signedIn.value];
      && db.users == old(db.users)[signedIn.value := ResetAuthenticatorKey(u, newKey, newStamp)]
      && r == Ok(AuthenticatorSetup(GenerateQrCodeUri(enc, u.email, newKey), newKey))
  {
    if signedIn.None? || signedIn.value !in db.users {
      return Err(NotAuthenticated);
    }
    var id := signedIn.value;
    var user := ResetAuthenticatorKey(db.users[id], newKey, newStamp);
    db.users := db.users[id := user];
    var unformattedKey := user.authenticatorKey.value;
    r := Ok(AuthenticatorSetup(GenerateQrCodeUri(enc, user.email, unformattedKey), unformattedKey));
  }

  /** The payload's `VerificationCode` property as `TryGetProperty` finds it. */
  datatype CodeProperty =
    | NoProperty                 // TryGetProperty fails
    | JsonNull                   // GetString() returns null
    | JsonString(text: string)
    | JsonOther                  // a number, object, array or boolean, where GetString() throws;
                                 // also a payload that is not an object, where TryGetProperty throws

  /** The reply of an AJAX action: a JSON body, or an exception that escapes the action. */
  datatype AjaxReply<T> = Reply(body: Result<T, string>) | Unhandled

  /** The code `codeProp.GetString() ?? string.Empty` reads, for the properties that have one. */
  function CodeText(p: CodeProperty): Option<string>
    requires p.JsonNull? || p.JsonString?
  {
    if p.JsonString? then Some(p.text) else None
  }

  /**
   * `EnableSecondFactorAjax`. A missing property or a rejected code changes nothing; a
   * property that is not a string makes `GetString()` throw, which escapes the action with
   * nothing changed. An accepted code turns two-factor on (a new security stamp) and
   * issues ten new recovery codes; all ten are returned, and the identity library stores
   * them with duplicates dropped (`Distinct()`).
   */
  method EnableSecondFactor(db: ApplicationDbContext, signedIn: Option<string>, verificationCode: CodeProperty,
                            totp: Totp, newStamp: string, newCode: nat -> string)
    returns (r: AjaxReply<seq<string>>)
    requires db.Valid()
    modifies db`users
    ensures db.Valid()
    ensures !(r.Reply? && r.body.Ok?) ==> db.users == old(db.users)
    ensures signedIn.None? || signedIn.value !in old(db.users) ==> r == Reply(Err(NotAuthenticated))
    ensures signedIn.Some? && signedIn.value in old(db.users) ==>
      var u := old(db.users)[signedIn.value];
      if verificationCode.NoProperty? then r == Reply(Err("VerificationCode missing"))
      else if verificationCode.JsonOther? then r == Unhandled
      else if !CodeAccepted(u, NormalizeAuthenticatorCode(CodeText(verificationCode)), totp) then
        r == Reply(Err("Invalid verification code"))
      else
        && r == Reply(Ok(NewRecoveryCodes(newCode, RecoveryCodeCount)))
        && db.users == old(db.users)[signedIn.value :=
             u.(twoFactorEnabled := true, securityStamp := newStamp, recoveryCodes := Distinct(r.body.value))]
  {
    if signedIn.None? || signedIn.value !in db.users {
      return Reply(Err(NotAuthenticated));
    }
    var id := signedIn.value;
    if verificationCode.NoProperty? {
      return Reply(Err("VerificationCode missing"));
    }
    if verificationCode.JsonOther? {
      return Unhandled;
    }
    var code := NormalizeAuthenticatorCode(CodeText(verificationCode));
    if !CodeAccepted(db.users[id], code, totp) {
      return Reply(Err("Invalid verification code"));
    }
    var codes := NewRecoveryCodes(newCode, RecoveryCodeCount);
    db.users := db.users[id := db.users[id].(twoFactorEnabled := true, securityStamp := newStamp,
                                             recoveryCodes := Distinct(codes))];
    r := Reply(Ok(codes));
  }

  /**
   * The codes stored for a user are the issued ones, each once: every issued code is
   * stored, nothing else is, none twice, and there are exactly ten when the generator
   * issues ten different codes.
   */
  lemma StoredRecoveryCodes(newCode: nat -> string)
    ensures var stored := Distinct(NewRecoveryCodes(newCode, RecoveryCodeCount));
      && (forall i :: 0 <= i < RecoveryCodeCount ==> newCode(i) in stored)
      && (forall k :: 0 <= k < |stored| ==> exists i :: 0 <= i < RecoveryCodeCount && stored[k] == newCode(i))
      && NoDuplicates(stored)
      && ((forall i, j :: 0 <= i < j < RecoveryCodeCount ==> newCode(i) != newCode(j)) ==> |stored| == 10)
  {
    var issued := NewRecoveryCodes(newCode, RecoveryCodeCount);
    var stored := Distinct(issued);
    forall i | 0 <= i < RecoveryCodeCount ensures newCode(i) in stored {
      assert issued[i] == newCode(i);
    }
    forall k | 0 <= k < |stored| ensures exists i :: 0 <= i < RecoveryCodeCount && stored[k] == newCode(i) {
      var i :| 0 <= i < |issued| && issued[i] == stored[k];
    }
    if forall i, j :: 0 <= i < j < RecoveryCodeCount ==> newCode(i) != newCode(j) {
      assert NoDuplicates(issued);
      DistinctOfNoDuplicates(issued);
    }
  }

  datatype SelfServiceOutcome = Challenge | Disabled

  /**
   * `DisableTwoFactorSelf`: two-factor off, a new authenticator key and a new security
   * stamp (which ends other sign-ins). The stored recovery codes are left as they are.
   */
  method DisableTwoFactorSelf(db: ApplicationDbContext, signedIn: Option<string>, newKey: string, newStamp: string)
    returns (r: SelfServiceOutcome)
    requires db.Valid()
    modifies db`users
    ensures db.Valid()
    ensures r == Challenge <==> signedIn.None? || signedIn.value !in old(db.users)
    ensures r == Challenge ==> db.users == old(db.users)
    ensures r == Disabled ==>
      var u := old(db.users)[signedIn.value];
      db.users == old(db.users)[signedIn.value := ResetAuthenticatorKey(u, newKey, newStamp).(twoFactorEnabled := false)]
  {
    if signedIn.None? || signedIn.value !in db.users {
      return Challenge;
    }
    var id := signedIn.value;
    var user := db.users[id].(twoFactorEnabled := false);
    user := ResetAuthenticatorKey(user, newKey, newStamp);
    db.users := db.users[id := user];
    r := Disabled;
  }

  /** After disabling, the old key no longer verifies anything unless the new key happens to. */
  lemma DisabledKeyReplaced(u: ApplicationUser, newKey: string, newStamp: string, code: string, totp: Totp)
    ensures var v := ResetAuthenticatorKey(u, newKey, newStamp).(twoFactorEnabled := false);
      !v.twoFactorEnabled && (CodeAccepted(v, code, totp) <==> totp(newKey, code))
      && v.recoveryCodes == u.recoveryCodes
  {
  }

  /**
   * `ResetRecoveryCodesAjax`: refused while two-factor is off; otherwise ten new codes are
   * issued and returned, and the user's codes are replaced by them with duplicates dropped.
   */
  method ResetRecoveryCodes(db: ApplicationDbContext, signedIn: Option<string>, newCode: nat -> string)
    returns (r: Result<seq<string>, string>)
    requires db.Valid()
    modifies db`users
    ensures db.Valid()
    ensures r.Err? ==> db.users == old(db.users)
    ensures signedIn.None? || signedIn.value !in old(db.users) ==> r == Err(NotAuthenticated)
    ensures signedIn.Some? && signedIn.value in old(db.users) ==>
      var u := old(db.users)[signedIn.value];
      if !u.twoFactorEnabled then r == Err("Two-factor authentication is not enabled")
      else
        && r == Ok(NewRecoveryCodes(newCode, RecoveryCodeCount))
        && db.users == old(db.users)[signedIn.value := u.(recoveryCodes := Distinct(r.value))]
  {
    if signedIn.None? || signedIn.value !in db.users {
      return Err(NotAuthenticated);
    }
    var id := signedIn.value;
    if !db.users[id].twoFactorEnabled {
      return Err("Two-factor authentication is not enabled");
    }
    var codes := NewRecoveryCodes(newCode, RecoveryCodeCount);
    db.users := db.users[id := db.users[id].(recoveryCodes := Distinct(codes))];
    r := Ok(codes);
  }

  // ---------------------------------------------------------------- two-factor login, fallback path

  datatype TwoFactorLogin =
    | TwoFactorFormRedisplayed    // `ModelState` invalid: the form is shown again
    | NoTwoFactorContext          // redirect to Login
    | SignedIn(redirectTo: string)
    | AccountLockedOut
    | InvalidCode

  /** `ModelState.IsValid` for the two-factor form: `[Required]` on the code, so not null and not blank. */
  predicate TwoFactorFormValid(twoFactorCode: Option<string>) {
    twoFactorCode.Some? && !IsBlank(twoFactorCode.value)
  }

  /**
   * `LoginWith2fa` (POST) when the sign-in manager holds no two-factor user. A form without
   * a code is shown again and nothing changes. Otherwise the user is looked up by the id
   * the form carries. An accepted code clears the failure count and signs in; a rejected
   * one records a failure and then reports a lockout if it caused one.
   */
  method LoginWith2faFallback(db: ApplicationDbContext, userId: Option<string>, twoFactorCode: Option<string>,
                              returnUrl: Option<string>, home: string, totp: Totp, options: LockoutOptions, now: int)
    returns (r: TwoFactorLogin)
    requires db.Valid()
    modifies db`users
    ensures db.Valid()
    ensures r == TwoFactorFormRedisplayed <==> !TwoFactorFormValid(twoFactorCode)
    ensures r == NoTwoFactorContext <==>
      TwoFactorFormValid(twoFactorCode) && (userId.None? || userId.value == "" || userId.value !in old(db.users))
    ensures r in {TwoFactorFormRedisplayed, NoTwoFactorContext} ==> db.users == old(db.users)
    ensures r !in {TwoFactorFormRedisplayed, NoTwoFactorContext} ==>
      var u := old(db.users)[userId.value];
      if CodeAccepted(u, NormalizeAuthenticatorCode(twoFactorCode), totp) then
        && r == SignedIn(returnUrl.GetOr(home))
        && db.users == old(db.users)[userId.value := u.(accessFailedCount := 0)]
      else
        && db.users == old(db.users)[userId.value := AccessFailed(u, options, now)]
        && (r == AccountLockedOut <==> IdentityLockedOut(AccessFailed(u, options, now), now))
        && (r != AccountLockedOut ==> r == InvalidCode)
  {
    if !TwoFactorFormValid(twoFactorCode) {
      return TwoFactorFormRedisplayed;
    }
    if userId.None? || userId.value == "" || userId.value !in db.users {
      return NoTwoFactorContext;
    }
    var id := userId.value;
    var code := NormalizeAuthenticatorCode(twoFactorCode);
    if CodeAccepted(db.users[id], code, totp) {
      db.users := db.users[id := db.users[id].(accessFailedCount := 0)];
      return SignedIn(returnUrl.GetOr(home));
    }
    db.users := db.users[id := AccessFailed(db.users[id], options, now)];
    if IdentityLockedOut(db.users[id], now) {
      return AccountLockedOut;
    }
    r := InvalidCode;
  }

  // ---------------------------------------------------------------- password sign-in and forced change

  /** The outcome of `PasswordSignInAsync`, which belongs to the identity library. */
  datatype SignInResult = SignInSucceeded | SignInRequiresTwoFactor | SignInLockedOut | SignInFailed

  datatype LoginStep =
    | ToChangePassword
    | ToHome
    | ToLoginWith2fa(userId: Option<string>)
    | LoginError(message: string)

  /**
   * `Login` (POST) after the password check; `user` is `FindByEmailAsync(model.Email)`.
   * A successful sign-in of a user who must change the password goes to ChangePassword.
   */
  function LoginNext(result: SignInResult, user: Option<ApplicationUser>): (s: LoginStep)
    ensures s == ToChangePassword <==> result == SignInSucceeded && user.Some? && user.value.mustChangePassword
    ensures s == ToHome <==> result == SignInSucceeded && !(user.Some? && user.value.mustChangePassword)
    ensures s.ToLoginWith2fa? <==> result == SignInRequiresTwoFactor
    ensures s.ToLoginWith2fa? ==> s.userId == (if user.Some? then Some(user.value.id) else None)
    ensures s.LoginError? ==> s.message == (if result == SignInLockedOut then "User account locked out." else "Invalid login attempt.")
  {
    match result
    case SignInSucceeded => if user.Some? && user.value.mustChangePassword then ToChangePassword else ToHome
    case SignInRequiresTwoFactor => ToLoginWith2fa(if user.Some? then Some(user.value.id) else None)
    case SignInLockedOut => LoginError("User account locked out.")
    case SignInFailed => LoginError("Invalid login attempt.")
  }

  /**
   * A flagged user's successful login lands on the change-password page, and the
   * password-change gate lets that page through.
   */
  lemma FlaggedLoginReachesChangePassword(user: ApplicationUser)
    requires user.mustChangePassword
    ensures LoginNext(SignInSucceeded, Some(user)) == ToChangePassword
    ensures PasswordChangeGate(Some(user), Some(ChangePasswordPage)) == Pass
  {
    PasswordChangeRedirectPasses(Some(user));
  }

  datatype ChangePasswordOutcome = PasswordFormRedisplayed | ChangeChallenged | ResetRejected | PasswordChanged

  /**
   * `ChangePassword` (POST). `formValid` is `ModelState.IsValid`; whether the identity
   * library accepts the new password is `resetSucceeds`. An accepted reset stores the new
   * hash and a new security stamp, and then the flag is cleared; nothing else of the row
   * changes, and in particular `PasswordChangedAt` is not touched here.
   */
  method ChangePassword(db: ApplicationDbContext, signedIn: Option<string>, formValid: bool, resetSucceeds: bool,
                        newHash: string, newStamp: string)
    returns (r: ChangePasswordOutcome)
    requires db.Valid()
    modifies db`users
    ensures db.Valid()
    ensures r == PasswordFormRedisplayed <==> !formValid
    ensures r == ChangeChallenged <==> formValid && (signedIn.None? || signedIn.value !in old(db.users))
    ensures r == ResetRejected <==> formValid && signedIn.Some? && signedIn.value in old(db.users) && !resetSucceeds
    ensures r != PasswordChanged ==> db.users == old(db.users)
    ensures r == PasswordChanged ==>
      db.users == old(db.users)[signedIn.value := old(db.users)[signedIn.value].(
        passwordHash := newHash, securityStamp := newStamp, mustChangePassword := false)]
  {
    if !formValid {
      return PasswordFormRedisplayed;
    }
    if signedIn.None? || signedIn.value !in db.users {
      return ChangeChallenged;
    }
    if !resetSucceeds {
      return ResetRejected;
    }
    var id := signedIn.value;
    db.users := db.users[id := db.users[id].(passwordHash := newHash, securityStamp := newStamp, mustChangePassword := false)];
    r := PasswordChanged;
  }

  /** Once the password is changed the gate lets the user through everywhere; `PasswordChangedAt` is what it was. */
  lemma ChangedPasswordOpensSite(u: ApplicationUser, path: Option<string>, newHash: string, newStamp: string)
    ensures var v := u.(passwordHash := newHash, securityStamp := newStamp, mustChangePassword := false);
      PasswordChangeGate(Some(v), path) == Pass && v.passwordChangedAt == u.passwordChangedAt
  {
  }
}
