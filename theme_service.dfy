/**
 * `ThemeService`: the six colour themes, the site default read from the settings table,
 * each user's stored preference, and the theme a page is finally rendered with.
 */
module ThemeService {
  import opened Wrappers
  import opened Text
  import opened Domain
  import opened DbContext
  import opened ConfigurationService

  const ValidThemes: seq<string> := ["auto", "light", "dark", "dark-soft", "dark-slate", "dark-midnight"]
  const DefaultThemeKey := "Theme_Default"
  const FallbackTheme := "auto"

  /**
   * `IsValidTheme`: not blank, and one of the six themes once lower-cased. No listed theme
   * is blank, so the blank test never decides: a theme is valid exactly when its lower-cased
   * form is listed.
   */
  predicate IsValidTheme(theme: string)
    ensures IsValidTheme(theme) <==> ToLower(theme) in ValidThemes
  {
    BlankIgnoresCase(theme);
    assert ToLower(theme) in ValidThemes ==> !IsWhiteSpace(ToLower(theme)[0]);
    !IsBlank(theme) && ToLower(theme) in ValidThemes
  }

  /** The test ignores case: a theme is valid exactly when its lower-cased form is. */
  lemma ValidIgnoresCase(theme: string)
    ensures IsValidTheme(theme) <==> IsValidTheme(ToLower(theme))
  {
    ToLowerIdempotent(theme);
    BlankIgnoresCase(theme);
  }

  lemma BlankIgnoresCase(s: string)
    ensures IsBlank(ToLower(s)) <==> IsBlank(s)
  {
    forall i | 0 <= i < |s|
      ensures IsWhiteSpace(ToLower(s)[i]) <==> IsWhiteSpace(s[i])
    {
      if 'A' <= s[i] <= 'Z' {
        assert 'a' <= ToLower(s)[i] <= 'z';
      }
    }
  }

  /** Each listed theme is valid, and so is the fallback. */
  lemma ListedThemesValid(i: nat)
    requires i < |ValidThemes|
    ensures IsValidTheme(ValidThemes[i])
  {
    var s := ValidThemes[i];
    assert ToLower(s) == s;
    assert !IsWhiteSpace(s[0]);
  }

  /**
   * `GetDefaultThemeAsync`: the `Theme_Default` setting when it is present, non-empty and
   * valid, and "auto" otherwise.
   */
  function GetDefaultTheme(t: seq<AppConfiguration>, cipher: Cipher): (r: string)
    ensures IsValidTheme(r)
    ensures match GetValue(t, DefaultThemeKey, cipher)
      case Some(v) => r == (if v != "" && IsValidTheme(v) then v else FallbackTheme)
      case None => r == FallbackTheme
  {
    ListedThemesValid(0);
    match GetValue(t, DefaultThemeKey, cipher)
    case Some(v) => if v != "" && IsValidTheme(v) then v else FallbackTheme
    case None => FallbackTheme
  }

  /** `GetUserThemeAsync`: null for an empty id or an unknown user, else the stored preference. */
  function GetUserTheme(users: map<string, ApplicationUser>, userId: string): (r: Option<string>)
    ensures userId == "" ==> r.None?
    ensures r.None? <==> userId == "" || userId !in users
    ensures r.Some? ==> r.value == users[userId].preferredTheme
  {
    if userId == "" || userId !in users then None else Some(users[userId].preferredTheme)
  }

  /**
   * `GetEffectiveThemeAsync`: the user's stored theme when it is non-empty and valid, and
   * the default theme otherwise; whichever it is, it is valid.
   */
  function GetEffectiveTheme(
    users: map<string, ApplicationUser>, t: seq<AppConfiguration>, userId: Option<string>, cipher: Cipher): (r: string)
    ensures IsValidTheme(r)
    ensures userId.Some? && GetUserTheme(users, userId.value).Some?
         && GetUserTheme(users, userId.value).value != "" && IsValidTheme(GetUserTheme(users, userId.value).value)
         ==> r == GetUserTheme(users, userId.value).value
    ensures !(userId.Some? && GetUserTheme(users, userId.value).Some?
              && GetUserTheme(users, userId.value).value != "" && IsValidTheme(GetUserTheme(users, userId.value).value))
            ==> r == GetDefaultTheme(t, cipher)
  {
    if userId.Some? && userId.value != "" then
      var userTheme := GetUserTheme(users, userId.value);
      if userTheme.Some? && userTheme.value != "" && IsValidTheme(userTheme.value) then userTheme.value
      else GetDefaultTheme(t, cipher)
    else GetDefaultTheme(t, cipher)
  }

  /** Why `SetUserThemeAsync` throws. */
  datatype ThemeError =
    | MissingUserId        // ArgumentNullException
    | InvalidTheme(theme: string)   // ArgumentException
    | UserNotFound         // InvalidOperationException

  /**
   * `SetUserThemeAsync`: refuses an empty id, an invalid theme and an unknown user, in that
   * order, changing nothing; otherwise stores the theme as given (not lower-cased) as the
   * user's preference and changes nothing else.
   */
  method SetUserTheme(db: ApplicationDbContext, userId: string, theme: string) returns (outcome: Outcome<ThemeError>)
    requires db.Valid()
    modifies db`users
    ensures db.Valid()
    ensures userId == "" ==> outcome == Failed(MissingUserId)
    ensures userId != "" && !IsValidTheme(theme) ==> outcome == Failed(InvalidTheme(theme))
    ensures userId != "" && IsValidTheme(theme) && userId !in old(db.users) ==> outcome == Failed(UserNotFound)
    ensures outcome.Failed? ==> db.users == old(db.users)
    ensures outcome.Done? <==> userId != "" && IsValidTheme(theme) && userId in old(db.users)
    ensures outcome.Done? ==> db.users == old(db.users)[userId := old(db.users)[userId].(preferredTheme := theme)]
  {
    if userId == "" {
      return Failed(MissingUserId);
    }
    if !IsValidTheme(theme) {
      return Failed(InvalidTheme(theme));
    }
    if userId !in db.users {
      return Failed(UserNotFound);
    }
    db.users := db.users[userId := db.users[userId].(preferredTheme := theme)];
    outcome := Done;
  }

  /** After a successful `SetUserTheme`, pages for that user render with the theme just stored. */
  lemma SetThenEffective(
    users: map<string, ApplicationUser>, t: seq<AppConfiguration>, userId: string, theme: string, cipher: Cipher)
    requires userId != "" && userId in users && IsValidTheme(theme)
    ensures GetEffectiveTheme(users[userId := users[userId].(preferredTheme := theme)], t, Some(userId), cipher) == theme
  {
  }

  /**
   * After an administrator stores a valid `Theme_Default`, every page without a usable user
   * preference (no user, an unknown user, an empty or an invalid preference) renders with it.
   */
  lemma StoredDefaultApplies(
    users: map<string, ApplicationUser>, t: seq<AppConfiguration>, userId: Option<string>, theme: string,
    modifiedBy: Option<string>, now: int, cipher: Cipher)
    requires UniqueKeys(t) && RoundTrips(cipher) && IsValidTheme(theme)
    requires Assigned(t, DefaultThemeKey, theme, modifiedBy, now, cipher).Ok?
    requires userId.None? || GetUserTheme(users, userId.value).None?
          || !IsValidTheme(GetUserTheme(users, userId.value).value)
    ensures GetEffectiveTheme(users, Assigned(t, DefaultThemeKey, theme, modifiedBy, now, cipher).value, userId, cipher)
         == theme
  {
    SetThenGet(t, DefaultThemeKey, theme, modifiedBy, now, cipher);
    assert theme != "";
  }
}
