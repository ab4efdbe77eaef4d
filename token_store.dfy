/**
 * `TokenStore`: Gmail OAuth tokens and Naver IMAP credentials kept in a
 * preferences map (the encryption of `EncryptedSharedPreferences` is not
 * modelled). Reads validate what they find and give null for anything
 * missing, blank or (for the expiry) not positive.
 */
module Credentials {
  import opened Wrappers
  import opened Text

  /** A stored preference: `putString` or `putLong`. */
  datatype PrefValue = StringPref(text: string) | LongPref(number: int)

  type Prefs = map<string, PrefValue>

  const KeyGmailAccessToken: string := "gmail_access_token"
  const KeyGmailRefreshToken: string := "gmail_refresh_token"
  const KeyGmailExpiresAt: string := "gmail_expires_at"
  const KeyGmailEmail: string := "gmail_email"
  const KeyNaverAppPassword: string := "naver_app_password"
  const KeyNaverUsername: string := "naver_username"

  /** What `getLong(KEY_GMAIL_EXPIRES_AT, -1L)` gives when nothing is stored. */
  const MissingExpiry: int := -1

  datatype OAuthTokens = OAuthTokens(accessToken: string, refreshToken: string, expiresAtEpochMillis: int, email: Option<string>)

  datatype NaverCredentials = NaverCredentials(username: string, appPassword: string)

  /** `OAuthTokens.isExpired`: the expiry instant itself already counts as expired. */
  predicate IsExpired(tokens: OAuthTokens, nowEpochMillis: int) {
    nowEpochMillis >= tokens.expiresAtEpochMillis
  }

  /** Each key holds the kind of value the store writes under it, so every read finds a value of the type it asks for. */
  predicate WellTyped(p: Prefs) {
    (forall k | k in p && k != KeyGmailExpiresAt :: p[k].StringPref?)
    && (KeyGmailExpiresAt in p ==> p[KeyGmailExpiresAt].LongPref?)
  }

  /** `getString(key, null)`. */
  function GetString(p: Prefs, key: string): Option<string> {
    if key in p && p[key].StringPref? then Some(p[key].text) else None
  }

  /** `getLong(key, default)`. */
  function GetLong(p: Prefs, key: string, default: int): int {
    if key in p && p[key].LongPref? then p[key].number else default
  }

  /** `isNullOrBlank`. */
  predicate NullOrBlank(s: Option<string>) {
    s.None? || IsBlank(s.value)
  }

  /** `saveGmailTokens`: a null email leaves the stored email as it was. */
  function SaveGmail(p: Prefs, accessToken: string, refreshToken: string, expiresAtEpoch: int, email: Option<string>): Prefs {
    var q := p[KeyGmailAccessToken := StringPref(accessToken)][KeyGmailRefreshToken := StringPref(refreshToken)][KeyGmailExpiresAt := LongPref(expiresAtEpoch)];
    if email.Some? then q[KeyGmailEmail := StringPref(email.value)] else q
  }

  /** `readGmailTokens`. */
  function ReadGmail(p: Prefs): (r: Option<OAuthTokens>)
    ensures r.Some? ==> !IsBlank(r.value.accessToken) && !IsBlank(r.value.refreshToken) && r.value.expiresAtEpochMillis > 0
    ensures r.None? <==>
      NullOrBlank(GetString(p, KeyGmailAccessToken)) || NullOrBlank(GetString(p, KeyGmailRefreshToken))
      || GetLong(p, KeyGmailExpiresAt, MissingExpiry) <= 0
  {
    var access := GetString(p, KeyGmailAccessToken);
    var refresh := GetString(p, KeyGmailRefreshToken);
    var expiry := GetLong(p, KeyGmailExpiresAt, MissingExpiry);
    var email := GetString(p, KeyGmailEmail);
    if !NullOrBlank(access) && !NullOrBlank(refresh) && expiry > 0 then
      Some(OAuthTokens(access.value, refresh.value, expiry, email))
    else None
  }

  /** `saveNaverCredentials`. */
  function SaveNaver(p: Prefs, username: string, password: string): Prefs {
    p[KeyNaverUsername := StringPref(username)][KeyNaverAppPassword := StringPref(password)]
  }

  /** `readNaverCredentials`. */
  function ReadNaver(p: Prefs): (r: Option<NaverCredentials>)
    ensures r.Some? ==> !IsBlank(r.value.username) && !IsBlank(r.value.appPassword)
    ensures r.None? <==> NullOrBlank(GetString(p, KeyNaverUsername)) || NullOrBlank(GetString(p, KeyNaverAppPassword))
  {
    var username := GetString(p, KeyNaverUsername);
    var password := GetString(p, KeyNaverAppPassword);
    if !NullOrBlank(username) && !NullOrBlank(password) then Some(NaverCredentials(username.value, password.value))
    else None
  }

  lemma SavesWellTyped(p: Prefs, accessToken: string, refreshToken: string, expiresAtEpoch: int, email: Option<string>, username: string, password: string)
    requires WellTyped(p)
    ensures WellTyped(SaveGmail(p, accessToken, refreshToken, expiresAtEpoch, email))
    ensures WellTyped(SaveNaver(p, username, password))
  {
  }

  /**
   * Tokens saved with non-blank values and a positive expiry read back as
   * saved, with the email given or, when none was given, the one stored
   * before; any other tokens read back as null.
   */
  lemma SaveThenReadGmail(p: Prefs, accessToken: string, refreshToken: string, expiresAtEpoch: int, email: Option<string>)
    ensures var r := ReadGmail(SaveGmail(p, accessToken, refreshToken, expiresAtEpoch, email));
      if !IsBlank(accessToken) && !IsBlank(refreshToken) && expiresAtEpoch > 0 then
        r == Some(OAuthTokens(accessToken, refreshToken, expiresAtEpoch, if email.Some? then email else GetString(p, KeyGmailEmail)))
      else r.None?
  {
    var q := SaveGmail(p, accessToken, refreshToken, expiresAtEpoch, email);
    assert GetString(q, KeyGmailAccessToken) == Some(accessToken);
    assert GetString(q, KeyGmailRefreshToken) == Some(refreshToken);
    assert GetLong(q, KeyGmailExpiresAt, MissingExpiry) == expiresAtEpoch;
    assert GetString(q, KeyGmailEmail) == if email.Some? then email else GetString(p, KeyGmailEmail);
  }

  /** Saving Gmail tokens does not touch the Naver credentials, and saving those does not touch the tokens. */
  lemma SavesIndependent(p: Prefs, accessToken: string, refreshToken: string, expiresAtEpoch: int, email: Option<string>, username: string, password: string)
    ensures ReadNaver(SaveGmail(p, accessToken, refreshToken, expiresAtEpoch, email)) == ReadNaver(p)
    ensures ReadGmail(SaveNaver(p, username, password)) == ReadGmail(p)
  {
    var q := SaveGmail(p, accessToken, refreshToken, expiresAtEpoch, email);
    assert GetString(q, KeyNaverUsername) == GetString(p, KeyNaverUsername);
    assert GetString(q, KeyNaverAppPassword) == GetString(p, KeyNaverAppPassword);
    var n := SaveNaver(p, username, password);
    assert GetString(n, KeyGmailAccessToken) == GetString(p, KeyGmailAccessToken);
    assert GetString(n, KeyGmailRefreshToken) == GetString(p, KeyGmailRefreshToken);
    assert GetLong(n, KeyGmailExpiresAt, MissingExpiry) == GetLong(p, KeyGmailExpiresAt, MissingExpiry);
    assert GetString(n, KeyGmailEmail) == GetString(p, KeyGmailEmail);
  }

  /** Non-blank credentials read back as saved; a blank one makes the read null. */
  lemma SaveThenReadNaver(p: Prefs, username: string, password: string)
    ensures var r := ReadNaver(SaveNaver(p, username, password));
      if !IsBlank(username) && !IsBlank(password) then r == Some(NaverCredentials(username, password)) else r.None?
  {
    var q := SaveNaver(p, username, password);
    assert GetString(q, KeyNaverUsername) == Some(username);
  }

  /** After `clearAll` both reads are null. */
  lemma ClearedReadsNothing()
    ensures ReadGmail(map[]) == None && ReadNaver(map[]) == None
  {
  }

  class TokenStore {
    var prefs: Prefs

    ghost predicate Valid()
      reads this
    {
      WellTyped(prefs)
    }

    constructor()
      ensures prefs == map[] && Valid()
    {
      prefs := map[];
    }

    method SaveGmailTokens(accessToken: string, refreshToken: string, expiresAtEpoch: int, email: Option<string>)
      requires Valid()
      modifies this
      ensures Valid()
      ensures prefs == SaveGmail(old(prefs), accessToken, refreshToken, expiresAtEpoch, email)
    {
      prefs := prefs[KeyGmailAccessToken := StringPref(accessToken)];
      prefs := prefs[KeyGmailRefreshToken := StringPref(refreshToken)];
      prefs := prefs[KeyGmailExpiresAt := LongPref(expiresAtEpoch)];
      if email.Some? {
        prefs := prefs[KeyGmailEmail := StringPref(email.value)];
      }
    }

    function ReadGmailTokens(): Option<OAuthTokens>
      reads this
    {
      ReadGmail(prefs)
    }

    method SaveNaverCredentials(username: string, password: string)
      requires Valid()
      modifies this
      ensures Valid()
      ensures prefs == SaveNaver(old(prefs), username, password)
    {
      prefs := prefs[KeyNaverUsername := StringPref(username)];
      prefs := prefs[KeyNaverAppPassword := StringPref(password)];
    }

    function ReadNaverCredentials(): Option<NaverCredentials>
      reads this
    {
      ReadNaver(prefs)
    }

    method ClearAll()
      modifies this
      ensures Valid()
      ensures prefs == map[] && ReadGmailTokens().None? && ReadNaverCredentials().None?
    {
      prefs := map[];
    }
  }
}
