/**
 * The Nginx sync plugin's login: a form with a server is stored for a
 * newly switched-to account in the host's key-value store, and the
 * provider-level override URL and basic-auth credentials are derived from
 * what is stored.
 */
module NginxSync {
  import opened Options
  import opened KotlinText

  const NginxUserKey: string := "nginx_user"

  /** `AuthLoginResponse`: what the user typed into the login form. */
  datatype LoginForm = LoginForm(password: Option<string>, username: Option<string>, email: Option<string>,
                                 server: Option<string>)

  /** `AuthToken(payload = form.toJson())`: the model keeps the form itself as the payload. */
  datatype AuthToken = AuthToken(payload: LoginForm)

  /** `AuthAPI.LoginInfo`: the name shown for the account and the account's index. */
  datatype LoginInfo = LoginInfo(name: Option<string>, accountIndex: int)

  /**
   * `data.server?.removeSuffix("/") + "/"`: one trailing '/' at most is
   * dropped and one is added. A missing server reads as "null" (Kotlin's
   * `String?.plus`).
   */
  function OverrideUrlOf(server: Option<string>): (r: string)
    ensures |r| > 0 && r[|r| - 1] == '/'
    ensures server.Some? ==> r == (if |server.value| > 0 && server.value[|server.value| - 1] == '/'
                                   then server.value else server.value + "/")
  {
    var base := if server.Some? then RemoveSuffix(server.value, "/") else "null";
    base + "/"
  }

  /** Normalising an override URL a second time changes nothing. */
  lemma OverrideUrlIdempotent(server: Option<string>)
    ensures OverrideUrlOf(Some(OverrideUrlOf(server))) == OverrideUrlOf(server)
  {
  }

  /** `"${data.username ?: ""}:${data.password ?: ""}"`. */
  function Credentials(data: LoginForm): (r: string)
    ensures |r| == |data.username.GetOr("")| + 1 + |data.password.GetOr("")|
  {
    data.username.GetOr("") + ":" + data.password.GetOr("")
  }

  /**
   * The credentials read back as basic auth reads them: when the username
   * has no ':', the text before the first ':' is the username and the text
   * after it is the password.
   */
  lemma CredentialsParse(data: LoginForm)
    requires ':' !in data.username.GetOr("")
    ensures var r := Credentials(data);
            var user, pass := data.username.GetOr(""), data.password.GetOr("");
            IndexOf(r, ':') == Some(|user|) && r[..|user|] == user && r[|user| + 1..] == pass
  {
    var r := Credentials(data);
    var user := data.username.GetOr("");
    assert r[..|user|] == user;
    assert r[|user|] == ':';
  }

  /** The static fields of `NginxProvider` that later requests read. */
  class NginxProvider {
    var overrideUrl: Option<string>
    var loginCredentials: Option<string>

    constructor ()
      ensures overrideUrl.None? && loginCredentials.None?
    {
      overrideUrl := None;
      loginCredentials := None;
    }
  }

  /**
   * `NginxApi`: `accountIndex` is the current account, `registered` the
   * accounts the host knows, and `store` the host's key-value store keyed
   * by (account, key) (`getKey(accountId, key)`).
   */
  class NginxApi {
    var accountIndex: int
    var registered: set<int>
    var store: map<(int, string), LoginForm>

    constructor (accountIndex: int, registered: set<int>, store: map<(int, string), LoginForm>)
      ensures this.accountIndex == accountIndex && this.registered == registered && this.store == store
    {
      this.accountIndex := accountIndex;
      this.registered := registered;
      this.store := store;
    }

    /** `getLatestLoginData`: the form stored for the current account, if any. */
    function LatestLoginData(): (r: Option<LoginForm>)
      reads this
      ensures r.Some? <==> (accountIndex, NginxUserKey) in store
      ensures r.Some? ==> r.value == store[(accountIndex, NginxUserKey)]
    {
      if (accountIndex, NginxUserKey) in store then Some(store[(accountIndex, NginxUserKey)]) else None
    }

    /**
     * `loginInfo`: nothing when no form is stored; otherwise the account is
     * shown under its username, or its server when it has none.
     */
    function LoginInfoOf(): (r: Option<LoginInfo>)
      reads this
      ensures r.None? <==> (accountIndex, NginxUserKey) !in store
      ensures r.Some? ==> r.value.accountIndex == accountIndex
      ensures r.Some? ==> var data := store[(accountIndex, NginxUserKey)];
                          r.value.name == (if data.username.Some? then data.username else data.server)
    {
      match LatestLoginData()
      case None => None
      case Some(data) => Some(LoginInfo(if data.username.Some? then data.username else data.server, accountIndex))
    }

    /**
     * `initializeData`: both provider fields are derived from the stored
     * form, or cleared when there is none.
     */
    method InitializeData(provider: NginxProvider)
      modifies provider
      ensures LatestLoginData().None? ==> provider.overrideUrl.None? && provider.loginCredentials.None?
      ensures LatestLoginData().Some? ==>
                provider.overrideUrl == Some(OverrideUrlOf(LatestLoginData().value.server))
                && provider.loginCredentials == Some(Credentials(LatestLoginData().value))
    {
      var data := LatestLoginData();
      if data.None? {
        provider.overrideUrl := None;
        provider.loginCredentials := None;
        return;
      }
      provider.overrideUrl := Some(OverrideUrlOf(data.value.server));
      provider.loginCredentials := Some(Credentials(data.value));
    }

    /**
     * `login`: a form without a non-blank server is refused and nothing
     * changes; otherwise the host switches to a new account (`newIndex`,
     * the host's choice), the form is stored for it, the account is
     * registered and the provider fields are derived from the form.
     */
    method Login(form: LoginForm, newIndex: int, provider: NginxProvider) returns (token: Option<AuthToken>)
      modifies this, provider
      ensures IsNullOrBlank(form.server) ==> token.None? && unchanged(this) && unchanged(provider)
      ensures !IsNullOrBlank(form.server) ==>
                && token == Some(AuthToken(form))
                && accountIndex == newIndex
                && registered == old(registered) + {newIndex}
                && store == old(store)[(newIndex, NginxUserKey) := form]
                && LatestLoginData() == Some(form)
                && provider.overrideUrl == Some(OverrideUrlOf(form.server))
                && provider.loginCredentials == Some(Credentials(form))
                && LoginInfoOf() == Some(LoginInfo(if form.username.Some? then form.username else form.server, newIndex))
    {
      if IsNullOrBlank(form.server) {
        return None;
      }
      accountIndex := newIndex;
      store := store[(accountIndex, NginxUserKey) := form];
      registered := registered + {accountIndex};
      InitializeData(provider);
      return Some(AuthToken(form));
    }
  }
}
