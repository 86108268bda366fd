/**
 * The credential policy of `google_auth.py`: `request_with_refresh` (send,
 * and on a 401 refresh once and resend once), `_refresh_token` (refresh,
 * then persist the credential or delete the token file) and the decisions
 * of `get_drive_credentials` (client configuration present, token file
 * present, scopes covered, expired with a refresh token, still valid).
 *
 * The OAuth library is replaced by data: a stored credential is a `Grant`
 * whose `expired` flag and scopes are what the library reports for it, the
 * token endpoint's answer to a refresh is a `RefreshReply`, and the
 * interactive consent flow is the grant it yields, or nothing when it raises.
 */
module GoogleAuth {
  import opened Wrappers
  import opened Http

  /** The scopes asked for when the caller names none (`DEFAULT_DRIVE_SCOPES`). */
  const DEFAULT_DRIVE_SCOPES: set<string> := {
    "https://www.googleapis.com/auth/drive.readonly",
    "https://www.googleapis.com/auth/drive.file"
  }

  /** What a credential holds, as written to and read from the token file. */
  datatype Grant = Grant(token: Option<string>, refreshToken: Option<string>, expired: bool, scopes: set<string>)

  /** `creds.valid`: there is an access token and it has not expired. */
  predicate IsValid(g: Grant)
  {
    g.token.Some? && !g.expired
  }

  /** `creds.refresh_token` taken as a condition: present and not the empty string. */
  predicate HasRefreshToken(g: Grant)
  {
    g.refreshToken.Some? && g.refreshToken.value != ""
  }

  /** `creds.has_scopes(scopes)`: every requested scope is granted. */
  predicate HasScopes(g: Grant, requested: set<string>)
  {
    requested <= g.scopes
  }

  /** The token endpoint's answer to a refresh: a new access token, or an exception. */
  datatype RefreshReply = Refreshed(token: string) | RefreshFailed

  /** The credential after a successful refresh: the new access token, no longer expired. */
  function Renewed(g: Grant, token: string): (r: Grant)
    ensures IsValid(r) && r.token == Some(token)
    ensures r.refreshToken == g.refreshToken && r.scopes == g.scopes
  {
    g.(token := Some(token), expired := false)
  }

  /**
   * `request_fn`: the number of the call and the access token sent decide
   * what comes back, a status code or an exception (a `requests` call with a
   * timeout can raise).
   */
  type Requester = (nat, Option<string>) -> Reply

  /** `response.status_code == 401`. */
  predicate Unauthorized(r: Reply)
  {
    r == Status(401)
  }

  datatype AuthError =
    | MissingClientConfig   // `FileNotFoundError`: the client configuration file does not exist
    | FlowFailed            // the interactive consent flow raised

  /** `creds`: an OAuth credential that a refresh updates in place. */
  class Credentials {
    var token: Option<string>
    var refreshToken: Option<string>
    var expired: bool
    var scopes: set<string>

    /** `Credentials.from_authorized_user_file` and the flow's result: a credential holding `g`. */
    constructor FromGrant(g: Grant)
      ensures Snapshot() == g
    {
      token, refreshToken, expired, scopes := g.token, g.refreshToken, g.expired, g.scopes;
    }

    /** `creds.to_json()`: what gets written to the token file. */
    function Snapshot(): Grant
      reads this
    {
      Grant(token, refreshToken, expired, scopes)
    }

    /** `creds.refresh(Request())`: on success the new access token replaces the old one; on failure nothing changes. */
    method Refresh(reply: RefreshReply) returns (ok: bool)
      modifies this
      ensures ok == reply.Refreshed?
      ensures ok ==> Snapshot() == Renewed(old(Snapshot()), reply.token)
      ensures !ok ==> Snapshot() == old(Snapshot())
    {
      match reply {
        case Refreshed(t) =>
          token, expired := Some(t), false;
          ok := true;
        case RefreshFailed =>
          ok := false;
      }
    }
  }

  /** The token file: absent, or holding one serialised credential. */
  class TokenFile {
    var saved: Option<Grant>

    /** `Path(token_path).write_text(creds.to_json())`. */
    method Write(g: Grant)
      modifies this
      ensures saved == Some(g)
    {
      saved := Some(g);
    }

    /** `os.remove(token_path)` on a token file that exists. */
    method Remove()
      requires saved.Some?
      modifies this
      ensures saved == None
    {
      saved := None;
    }
  }

  /**
   * `_refresh_token`: refresh `creds`; on success persist the refreshed
   * credential and report true, on failure delete the token file (if there
   * is one), leave `creds` as it was and report false.
   */
  method RefreshToken(creds: Credentials, file: TokenFile, reply: RefreshReply) returns (ok: bool)
    modifies creds, file
    ensures ok == reply.Refreshed?
    ensures ok ==> creds.Snapshot() == Renewed(old(creds.Snapshot()), reply.token) && file.saved == Some(creds.Snapshot())
    ensures !ok ==> creds.Snapshot() == old(creds.Snapshot()) && file.saved == None
  {
    ok := creds.Refresh(reply);
    if ok {
      file.Write(creds.Snapshot());
    } else if file.saved.Some? {
      file.Remove();
    }
  }

  /**
   * The response returned (or the exception that escapes), how many times
   * `request_fn` ran, and how many refreshes were tried.
   */
  datatype Exchange = Exchange(response: Reply, calls: nat, refreshes: nat)

  /**
   * The retry-once policy of `request_with_refresh` for a credential `g`:
   * `request_fn` runs once, and runs a second time only after a 401 for a
   * credential with a refresh token whose single refresh succeeded; the
   * second response is returned whatever its status, and otherwise the first
   * response is returned unchanged. An exception from the first call escapes
   * before any refresh; one from the second escapes after the refresh.
   */
  function RetryPolicy(send: Requester, g: Grant, refresh: RefreshReply): (e: Exchange)
    ensures 1 <= e.calls <= 2 && e.refreshes <= 1
    ensures e.refreshes == 1 <==> Unauthorized(send(0, g.token)) && HasRefreshToken(g)
    ensures e.calls == 2 <==> e.refreshes == 1 && refresh.Refreshed?
    ensures e.calls == 1 ==> e.response == send(0, g.token)
    ensures e.calls == 2 ==> e.response == send(1, Some(refresh.token))
    ensures send(0, g.token).Raised? ==> e == Exchange(Raised, 1, 0)
    ensures e.response.Raised? ==>
      e == Exchange(Raised, 1, 0) || (e == Exchange(Raised, 2, 1) && refresh.Refreshed?)
  {
    var first := send(0, g.token);
    if Unauthorized(first) && HasRefreshToken(g) then
      match refresh
      case Refreshed(t) => Exchange(send(1, Renewed(g, t).token), 2, 1)
      case RefreshFailed => Exchange(first, 1, 1)
    else
      Exchange(first, 1, 0)
  }

  /**
   * `request_with_refresh(request_fn, creds, token_path)`: follows
   * `RetryPolicy`; when no refresh was tried nothing but the request happens,
   * and when one was tried `creds` and the token file change as
   * `RefreshToken` says.
   */
  method RequestWithRefresh(send: Requester, creds: Credentials, file: TokenFile, refresh: RefreshReply)
    returns (response: Reply, calls: nat, refreshes: nat)
    modifies creds, file
    ensures Exchange(response, calls, refreshes) == RetryPolicy(send, old(creds.Snapshot()), refresh)
    ensures refreshes == 0 ==> creds.Snapshot() == old(creds.Snapshot()) && file.saved == old(file.saved)
    ensures refreshes == 1 && refresh.Refreshed? ==>
      creds.Snapshot() == Renewed(old(creds.Snapshot()), refresh.token) && file.saved == Some(creds.Snapshot())
    ensures refreshes == 1 && refresh.RefreshFailed? ==>
      creds.Snapshot() == old(creds.Snapshot()) && file.saved == None
    ensures response.Raised? && calls == 2 ==>
      creds.Snapshot() == Renewed(old(creds.Snapshot()), refresh.token) && file.saved == Some(creds.Snapshot())
  {
    response := send(0, creds.token);
    calls, refreshes := 1, 0;
    if Unauthorized(response) && HasRefreshToken(creds.Snapshot()) {
      refreshes := 1;
      var ok := RefreshToken(creds, file, refresh);
      if ok {
        response := send(1, creds.token);
        calls := 2;
      }
    }
  }

  /** The scopes `get_drive_credentials` works with: the caller's, or the default ones. */
  function RequestedScopes(scopes: Option<set<string>>): set<string>
  {
    match scopes
    case None => DEFAULT_DRIVE_SCOPES
    case Some(s) => s
  }

  /** The credential returned (or the error raised), the token file afterwards, and whether the flow ran. */
  datatype Resolution = Resolution(result: Result<Grant, AuthError>, saved: Option<Grant>, flowRan: bool)

  /**
   * The decisions of `get_drive_credentials`, given whether the client
   * configuration exists, the scopes requested, the token file, the refresh
   * answer and what the interactive flow yields.
   *
   * A missing configuration fails before the token file is looked at. A
   * credential is returned without the flow only when it is valid and covers
   * the scopes; with no token file, or with a covering credential that is
   * invalid and cannot be refreshed, the flow runs. A stored credential lacking the scopes, or expired with a
   * refresh that fails, never comes back: its token file is deleted and the
   * flow runs, and the flow's result is persisted. Whatever is returned is
   * what the token file holds.
   */
  function Resolve(configPresent: bool, requested: set<string>, saved: Option<Grant>, refresh: RefreshReply,
                   flow: Option<Grant>): (r: Resolution)
    ensures !configPresent ==> r == Resolution(Failure(MissingClientConfig), saved, false)
    ensures r.result.Success? ==> r.saved == Some(r.result.value)
    ensures configPresent && !r.flowRan ==>
      r.result.Success? && IsValid(r.result.value) && HasScopes(r.result.value, requested)
    ensures r.flowRan ==> configPresent
    ensures r.flowRan ==>
      match flow
      case Some(g) => r.result == Success(g) && r.saved == flow
      case None => r.result == Failure(FlowFailed)
    ensures configPresent && saved.Some? && !HasScopes(saved.value, requested) ==> r.flowRan && r.saved == flow
    ensures configPresent && saved.Some? && HasScopes(saved.value, requested) && IsValid(saved.value) ==>
      r == Resolution(Success(saved.value), saved, false)
    ensures (configPresent && saved.Some? && HasScopes(saved.value, requested) &&
             saved.value.expired && HasRefreshToken(saved.value)) ==>
      match refresh
      case Refreshed(t) => r == Resolution(Success(Renewed(saved.value, t)), Some(Renewed(saved.value, t)), false)
      case RefreshFailed => r.flowRan && r.saved == flow
    ensures configPresent && saved.None? ==> r.flowRan && r.saved == flow
    ensures (configPresent && saved.Some? && HasScopes(saved.value, requested) && !IsValid(saved.value) &&
             !(saved.value.expired && HasRefreshToken(saved.value))) ==>
      r.flowRan && r.saved == (if flow.Some? then flow else saved)
  {
    if !configPresent then Resolution(Failure(MissingClientConfig), saved, false)
    else
      // A stored credential lacking the scopes is deleted along with its file.
      var loaded := if saved.Some? && HasScopes(saved.value, requested) then saved else None;
      // An expired credential with a refresh token is refreshed; a failed
      // refresh drops it and deletes its file. The file holds `current` after this.
      var current :=
        if loaded.Some? && loaded.value.expired && HasRefreshToken(loaded.value) then
          match refresh
          case Refreshed(t) => Some(Renewed(loaded.value, t))
          case RefreshFailed => None
        else loaded;
      if current.None? || !IsValid(current.value) then
        match flow
        case Some(g) => Resolution(Success(g), Some(g), true)
        case None => Resolution(Failure(FlowFailed), current, true)
      else Resolution(Success(current.value), current, false)
  }

  /**
   * `get_drive_credentials(scopes=...)`, step by step on the token file:
   * follows `Resolve`, returning a credential holding the grant `Resolve`
   * returns and leaving the token file as `Resolve` says.
   */
  method GetDriveCredentials(configPresent: bool, scopes: Option<set<string>>, file: TokenFile,
                             refresh: RefreshReply, flow: Option<Grant>)
    returns (result: Result<Credentials, AuthError>, flowRan: bool)
    modifies file
    ensures var r := Resolve(configPresent, RequestedScopes(scopes), old(file.saved), refresh, flow);
      && file.saved == r.saved && flowRan == r.flowRan
      && (match r.result
          case Success(g) => result.Success? && result.value.Snapshot() == g
          case Failure(e) => result == Failure(e))
  {
    var requested := RequestedScopes(scopes);
    if !configPresent {
      return Failure(MissingClientConfig), false;
    }
    var creds: Credentials? := null;
    if file.saved.Some? {
      creds := new Credentials.FromGrant(file.saved.value);
      if !HasScopes(creds.Snapshot(), requested) {
        file.Remove();
        creds := null;
      }
    }
    if creds != null && creds.expired && HasRefreshToken(creds.Snapshot()) {
      var ok := RefreshToken(creds, file, refresh);
      if !ok {
        creds := null;
      }
    }
    flowRan := false;
    if creds == null || !IsValid(creds.Snapshot()) {
      flowRan := true;
      if flow.None? {
        return Failure(FlowFailed), true;
      }
      creds := new Credentials.FromGrant(flow.value);
      file.Write(creds.Snapshot());
    }
    result := Success(creds);
  }
}
