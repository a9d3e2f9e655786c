/** The Hub URL and the stored token across runs of `login`, `logout` and `hub`
    (crates/sentinel-cli/src/hub.rs, ack.rs). `parse` stands for the URI parser of the HTTP library. */
module Credential {
  import opened Wrappers

  datatype Uri = Uri(
    scheme: Option<string>, authority: Option<string>, host: Option<string>, path: string, query: Option<string>)

  type Parser = string -> Option<Uri>

  datatype UrlError = Empty | BadScheme | MissingHost | Unparsable | Userinfo | HasPath | HasQuery | Cleartext

  // ----- URLs

  /** Splits at the first `://`. */
  function SplitScheme(url: string): Option<(string, string)> {
    if |url| < 3 then None
    else if url[..3] == "://" then Some(("", url[3..]))
    else
      match SplitScheme(url[1..])
      case Some((scheme, rest)) => Some(([url[0]] + scheme, rest))
      case None => None
  }

  function TrimSlashes(t: string): string {
    if t != "" && t[|t| - 1] == '/' then TrimSlashes(t[..|t| - 1]) else t
  }

  /** `validate_url`, with its checks in order. */
  function ValidateUrl(url: string, parse: Parser): Result<string, UrlError> {
    if url == "" then Err(Empty)
    else match SplitScheme(url)
      case None => Err(BadScheme)
      case Some((scheme, rest)) =>
        var trimmed := TrimSlashes(rest);
        if trimmed == "" then Err(MissingHost)
        else
          var normalized := scheme + "://" + trimmed;
          match parse(normalized)
          case None => Err(Unparsable)
          case Some(uri) =>
            if uri.scheme != Some("http") && uri.scheme != Some("https") then Err(BadScheme)
            else if uri.host == None || uri.host == Some("") then Err(MissingHost)
            else if uri.authority.Some? && '@' in uri.authority.value then Err(Userinfo)
            else if uri.path != "" && uri.path != "/" then Err(HasPath)
            else if uri.query.Some? then Err(HasQuery)
            else Ok(normalized)
  }

  predicate IsLoopback(base: string, parse: Parser) {
    match parse(base)
    case None => false
    case Some(uri) => uri.host in {Some("localhost"), Some("127.0.0.1"), Some("[::1]")}
  }

  /** Where a bearer may travel. */
  predicate Confidential(base: string, parse: Parser) {
    "https://" <= base || IsLoopback(base, parse)
  }

  function HubBase(url: string, carriesToken: bool, parse: Parser): Result<string, UrlError> {
    match ValidateUrl(url, parse)
    case Err(e) => Err(e)
    case Ok(base) => if carriesToken && !Confidential(base, parse) then Err(Cleartext) else Ok(base)
  }

  lemma {:induction false} SchemeSplitKeepsItsPlace(url: string, rest': string)
    requires SplitScheme(url).Some?
    ensures var (scheme, rest) := SplitScheme(url).value;
            && url == scheme + "://" + rest
            && SplitScheme(scheme + "://" + rest') == Some((scheme, rest'))
  {
    var (scheme, rest) := SplitScheme(url).value;
    var other := scheme + "://" + rest';
    if url[..3] == "://" {
      assert other[..3] == "://" && other[3..] == rest';
    } else {
      SchemeSplitKeepsItsPlace(url[1..], rest');
      assert other[1..] == scheme[1..] + "://" + rest';
      assert url == scheme + "://" + rest;
      assert other[0] == url[0] && other[1] == url[1] && other[2] == url[2];
      assert url[..3] == [url[0], url[1], url[2]] && other[..3] == [other[0], other[1], other[2]];
    }
  }

  lemma {:induction false} TrimmedStaysTrimmed(t: string)
    ensures TrimSlashes(TrimSlashes(t)) == TrimSlashes(t)
  {
    if t != "" && t[|t| - 1] == '/' {
      TrimmedStaysTrimmed(t[..|t| - 1]);
    }
  }

  /** What the URI parser must find in a URL that is accepted. */
  ghost predicate Accepted(uri: Option<Uri>) {
    && uri.Some? && (uri.value.scheme == Some("http") || uri.value.scheme == Some("https"))
    && uri.value.host.Some? && uri.value.host.value != ""
    && (uri.value.authority.Some? ==> '@' !in uri.value.authority.value)
    && (uri.value.path == "" || uri.value.path == "/") && uri.value.query.None?
  }

  predicate SeparatorAt(t: string, i: nat) {
    i + 3 <= |t| && t[i] == ':' && t[i + 1] == '/' && t[i + 2] == '/'
  }

  /** `url` is `scheme`, the first `://` in it, `rest`. */
  ghost predicate SplitsAt(url: string, scheme: string, rest: string) {
    url == scheme + "://" + rest && forall i :: 0 <= i < |scheme| ==> !SeparatorAt(url, i)
  }

  lemma {:induction false} SplitSchemeSound(url: string)
    ensures SplitScheme(url).Some? ==> SplitsAt(url, SplitScheme(url).value.0, SplitScheme(url).value.1)
    ensures SplitScheme(url).None? ==> forall i :: 0 <= i < |url| ==> !SeparatorAt(url, i)
  {
    if |url| >= 3 && url[..3] == "://" {
      assert url == "" + "://" + url[3..];
    } else if |url| >= 3 {
      var tail := url[1..];
      SplitSchemeSound(tail);
      assert url[..3] == [url[0], url[1], url[2]];
      assert forall i :: 0 < i < |url| ==> SeparatorAt(url, i) == SeparatorAt(tail, i - 1);
      if SplitScheme(tail).Some? {
        var (scheme, rest) := SplitScheme(tail).value;
        assert url == [url[0]] + tail;
        assert [url[0]] + (scheme + "://" + rest) == [url[0]] + scheme + "://" + rest;
      }
    }
  }

  lemma SeparatorAfter(url: string, scheme: string, rest: string)
    requires url == scheme + "://" + rest
    ensures SeparatorAt(url, |scheme|) && url[..|scheme|] == scheme && url[|scheme| + 3..] == rest
  {
  }

  lemma {:induction false} SplitSchemeIff(url: string, scheme: string, rest: string)
    ensures SplitScheme(url) == Some((scheme, rest)) <==> SplitsAt(url, scheme, rest)
  {
    SplitSchemeSound(url);
    if SplitsAt(url, scheme, rest) {
      SeparatorAfter(url, scheme, rest);
      assert SplitScheme(url).Some?;
      var (scheme', rest') := SplitScheme(url).value;
      SeparatorAfter(url, scheme', rest');
      assert |scheme| == |scheme'|;
    }
  }

  predicate AllSlashes(t: string) { forall i :: 0 <= i < |t| ==> t[i] == '/' }

  lemma {:induction false} TrimSlashesIff(t: string, trimmed: string)
    ensures TrimSlashes(t) == trimmed <==>
              trimmed <= t && AllSlashes(t[|trimmed|..]) && (trimmed != "" ==> trimmed[|trimmed| - 1] != '/')
  {
    if t != "" && t[|t| - 1] == '/' {
      var front := t[..|t| - 1];
      TrimSlashesIff(front, trimmed);
      if trimmed <= t && trimmed != t {
        assert trimmed <= front;
        assert forall i :: 0 <= i < |front| - |trimmed| ==> t[|trimmed|..][i] == front[|trimmed|..][i];
        assert t[|trimmed|..][|front| - |trimmed|] == '/';
      }
    } else if t != "" && trimmed <= t && trimmed != t {
      assert t[|trimmed|..][|t| - |trimmed| - 1] == t[|t| - 1];
    }
  }

  ghost predicate Spelled(url: string, base: string, scheme: string, host: string, slashes: string) {
    && SplitsAt(url, scheme, host + slashes) && AllSlashes(slashes)
    && host != "" && host[|host| - 1] != '/' && base == scheme + "://" + host
  }

  /** Which URLs are accepted, and as what: the part up to the first `://`, then all but the slashes at the end,
      which must not be nothing, when the parser finds an http(s) authority in that and nothing else. */
  lemma {:induction false} UrlAcceptedIff(url: string, base: string, parse: Parser)
    ensures ValidateUrl(url, parse) == Ok(base) <==>
              Accepted(parse(base)) &&
              exists scheme, host, slashes :: Spelled(url, base, scheme, host, slashes)
  {
    if ValidateUrl(url, parse) == Ok(base) {
      AcceptedIsSpelled(url, base, parse);
    }
    if scheme, host, slashes :| Spelled(url, base, scheme, host, slashes) {
      SpelledIsJudged(url, base, scheme, host, slashes, parse);
    }
  }

  lemma AcceptedIsSpelled(url: string, base: string, parse: Parser)
    requires ValidateUrl(url, parse) == Ok(base)
    ensures Accepted(parse(base)) && exists scheme, host, slashes :: Spelled(url, base, scheme, host, slashes)
  {
    var (scheme, rest) := SplitScheme(url).value;
    var host := TrimSlashes(rest);
    SplitSchemeIff(url, scheme, rest);
    TrimSlashesIff(rest, host);
    assert rest == host + rest[|host|..];
    assert Spelled(url, base, scheme, host, rest[|host|..]);
  }

  lemma SpelledIsJudged(url: string, base: string, scheme: string, host: string, slashes: string, parse: Parser)
    requires Spelled(url, base, scheme, host, slashes)
    ensures ValidateUrl(url, parse) == Ok(base) <==> Accepted(parse(base))
  {
    SplitSchemeIff(url, scheme, host + slashes);
    TrimSlashesIff(host + slashes, host);
    assert (host + slashes)[|host|..] == slashes;
  }

  /** A base that carries a token is https, or its host is one of the three loopback names. */
  lemma {:induction false} HubBaseIff(url: string, carriesToken: bool, base: string, parse: Parser)
    ensures HubBase(url, carriesToken, parse) == Ok(base) <==>
              && ValidateUrl(url, parse) == Ok(base)
              && (carriesToken ==>
                    || (|base| >= 8 && base[..8] == "https://")
                    || (parse(base).Some? && parse(base).value.host.Some?
                        && parse(base).value.host.value in ["localhost", "127.0.0.1", "[::1]"]))
  {
    assert "https://" <= base <==> |base| >= 8 && base[..8] == "https://";
  }

  /** Normalisation is idempotent: a stored base passes again, unchanged. */
  lemma {:induction false} NormalizationIdempotent(url: string, carriesToken: bool, parse: Parser)
    requires HubBase(url, carriesToken, parse).Ok?
    ensures var base := HubBase(url, carriesToken, parse).value;
            HubBase(base, carriesToken, parse) == Ok(base) && HubBase(base, false, parse) == Ok(base)
  {
    var (scheme, rest) := SplitScheme(url).value;
    SchemeSplitKeepsItsPlace(url, TrimSlashes(rest));
    TrimmedStaysTrimmed(rest);
  }

  // ----- the token

  const I64_MAX: int := 0x7FFF_FFFF_FFFF_FFFF
  const I64_MIN: int := -0x8000_0000_0000_0000

  type I64 = n: int | I64_MIN <= n <= I64_MAX

  function Saturate(n: int): I64 {
    if n > I64_MAX then I64_MAX else if n < I64_MIN then I64_MIN else n
  }

  function ExpiryOf(nowMs: I64, expiresIn: I64): I64 {
    Saturate(nowMs + Saturate(expiresIn * 1000))
  }

  /** Before `expiresIn` seconds have passed since `granted`, both clocks in milliseconds; capped where the
      product or the sum leaves 64 bits. */
  ghost predicate InTime(at: I64, granted: I64, expiresIn: I64) {
    var lifetime := 1000 * expiresIn;
    if I64_MIN <= lifetime <= I64_MAX && I64_MIN <= granted + lifetime <= I64_MAX then at < granted + lifetime
    else if expiresIn > 0 then at < I64_MAX && at < granted + I64_MAX
    else at < granted + I64_MIN
  }

  lemma ExpiresInTime(at: I64, granted: I64, expiresIn: I64)
    ensures at < ExpiryOf(granted, expiresIn) <==> InTime(at, granted, expiresIn)
  {
  }

  datatype StoredToken = StoredToken(hubUrl: string, token: string, expiresAtMs: I64)

  /** The token file: `open` when others can read it, `Unusable` when it is a link or does not parse. */
  datatype TokenFile = Absent | Stored(stored: StoredToken, open: bool) | Unusable

  datatype Target = Target(base: string, token: Option<string>)

  datatype Refusal = NoHub | BadUrl(error: UrlError) | OtherHub | TokenExpired | OpenFile | UnusableFile

  function FromStored(hub: Option<string>, stored: StoredToken, nowMs: I64, parse: Parser): Result<Target, Refusal> {
    match HubBase(stored.hubUrl, true, parse)
    case Err(e) => Err(BadUrl(e))
    case Ok(base) =>
      var asked := match hub case None => Ok(base) case Some(h) => HubBase(h, false, parse);
      if asked.Err? then Err(BadUrl(asked.error))
      else if asked.value != base then Err(OtherHub)
      else if stored.expiresAtMs <= nowMs then Err(TokenExpired)
      else Ok(Target(base, Some(stored.token)))
  }

  /** `envToken` is the trimmed environment variable, absent when it is empty. */
  function ResolveTarget(envToken: Option<string>, hub: Option<string>, file: TokenFile, nowMs: I64,
                         parse: Parser): Result<Target, Refusal> {
    match envToken
    case Some(token) =>
      (match hub
       case None => Err(NoHub)
       case Some(h) =>
         match HubBase(h, true, parse)
         case Err(e) => Err(BadUrl(e))
         case Ok(base) => Ok(Target(base, Some(token))))
    case None =>
      match file
      case Unusable => Err(UnusableFile)
      case Stored(stored, open) => if open then Err(OpenFile) else FromStored(hub, stored, nowMs, parse)
      case Absent =>
        match hub
        case None => Err(NoHub)
        case Some(h) =>
          match HubBase(h, false, parse)
          case Err(e) => Err(BadUrl(e))
          case Ok(base) => Ok(Target(base, None))
  }

  /** What a Hub granted: `None` when the device flow did not end in a token. */
  datatype Grant = Grant(token: string, expiresIn: I64)

  predicate WellFormedToken(token: string) {
    token != "" && forall i :: 0 <= i < |token| ==> '!' <= token[i] <= '~'
  }

  /** One thing that happens to the token file. `written` and `removed` say whether the file operation took
      effect; `Exposed`, `Damaged` and `Planted` are other programs'. */
  datatype Event =
    | LoginRun(hub: string, grant: Option<Grant>, nowMs: I64, written: bool)
    | LogoutRun(removed: bool)
    | Exposed(open: bool)
    | Damaged
    | Planted(stored: StoredToken, open: bool)

  /** The token a login stores, when it gets that far. */
  function Issued(e: Event, parse: Parser): Option<StoredToken>
    requires e.LoginRun?
  {
    match HubBase(e.hub, true, parse)
    case Err(_) => None
    case Ok(base) =>
      if e.grant.None? || !WellFormedToken(e.grant.value.token) || !e.written then None
      else Some(StoredToken(base, e.grant.value.token, ExpiryOf(e.nowMs, e.grant.value.expiresIn)))
  }

  /** The token that an event puts into the file, if it does. */
  function Stores(e: Event, parse: Parser): Option<StoredToken> {
    match e
    case LoginRun(_, _, _, _) => Issued(e, parse)
    case Planted(stored, _) => Some(stored)
    case _ => None
  }

  function After(file: TokenFile, e: Event, parse: Parser): TokenFile {
    match e
    case LoginRun(_, _, _, _) =>
      (match Issued(e, parse)
       case Some(stored) => Stored(stored, false)
       case None => file)
    case LogoutRun(removed) => if removed then Absent else file
    case Exposed(open) => if file.Stored? then file.(open := open) else file
    case Damaged => Unusable
    case Planted(stored, open) => Stored(stored, open)
  }

  function FileAfter(events: seq<Event>, parse: Parser): TokenFile {
    if events == [] then Absent
    else After(FileAfter(events[..|events| - 1], parse), events[|events| - 1], parse)
  }

  /** The token file as the two commands handle it. */
  class TokenStore {
    var file: TokenFile

    constructor ()
      ensures file == Absent
    {
      file := Absent;
    }

    /** `login`: every step before the write can end it and leaves the file alone. */
    method Login(hub: string, grant: Option<Grant>, nowMs: I64, written: bool, parse: Parser) returns (signedIn: bool)
      modifies this
      ensures file == After(old(file), LoginRun(hub, grant, nowMs, written), parse)
      ensures signedIn <==>
                && HubBase(hub, true, parse).Ok? && grant.Some? && written && grant.value.token != ""
                && forall i :: 0 <= i < |grant.value.token| ==> 33 <= grant.value.token[i] as int <= 126
      ensures !signedIn ==> file == old(file)
      ensures signedIn ==>
                && file.Stored? && !file.open && file.stored.token == grant.value.token
                && HubBase(hub, true, parse) == Ok(file.stored.hubUrl)
                && forall at: I64 :: at < file.stored.expiresAtMs <==> InTime(at, nowMs, grant.value.expiresIn)
    {
      var checked := HubBase(hub, true, parse);
      if checked.Err? { return false; }
      var base := checked.value;
      if grant.None? { return false; }
      var token := grant.value.token;
      if token == "" || !WellFormedToken(token) { return false; }
      var expiresAtMs := Saturate(nowMs + Saturate(grant.value.expiresIn * 1000));
      if !written { return false; }
      file := Stored(StoredToken(base, token, expiresAtMs), false);
      forall at: I64 ensures at < expiresAtMs <==> InTime(at, nowMs, grant.value.expiresIn) {
        ExpiresInTime(at, nowMs, grant.value.expiresIn);
      }
      return true;
    }

    /** `logout`: what was revoked at the Hub (asked only of a file that loads, at its own confidential base)
        and whether the command succeeded. The file goes whenever its removal works. */
    method Logout(removed: bool, parse: Parser) returns (revokeAt: Option<string>, ok: bool)
      modifies this
      ensures file == After(old(file), LogoutRun(removed || old(file) == Absent), parse)
      ensures file == if removed then Absent else old(file)
      ensures revokeAt.Some? ==>
                old(file).Stored? && HubBase(old(file).stored.hubUrl, true, parse) == Ok(revokeAt.value)
      ensures revokeAt.Some? <==> old(file).Stored? && HubBase(old(file).stored.hubUrl, true, parse).Ok?
      ensures ok <==> old(file).Absent? || (old(file).Stored? && removed)
    {
      match file {
        case Absent => return None, true;
        case Unusable =>
          if removed { file := Absent; }
          return None, false;
        case Stored(stored, open) =>
          var base := HubBase(stored.hubUrl, true, parse);
          revokeAt := if base.Ok? then Some(base.value) else None;
          if !removed { return revokeAt, false; }
          file := Absent;
          return revokeAt, true;
      }
    }
  }

  // ----- every run

  /** The last event that stored a token, if the file has not been removed since. */
  function LastWrite(events: seq<Event>, parse: Parser): (i: Option<nat>)
    ensures i.Some? ==> i.value < |events| && Stores(events[i.value], parse).Some?
    ensures i.Some? ==> forall j :: i.value < j < |events| ==>
                          events[j] != LogoutRun(true) && Stores(events[j], parse).None?
    ensures i.None? ==> forall k :: 0 <= k < |events| && Stores(events[k], parse).Some? ==>
                          exists j :: k < j < |events| && events[j] == LogoutRun(true)
  {
    if events == [] then None
    else
      var n := |events| - 1;
      if Stores(events[n], parse).Some? then Some(n)
      else if events[n] == LogoutRun(true) then None
      else LastWrite(events[..n], parse)
  }

  lemma {:induction false} FileHoldsTheLastWrite(events: seq<Event>, parse: Parser)
    ensures FileAfter(events, parse).Stored? ==> LastWrite(events, parse).Some?
    ensures FileAfter(events, parse).Stored? ==>
              Stores(events[LastWrite(events, parse).value], parse) == Some(FileAfter(events, parse).stored)
  {
    if events != [] {
      FileHoldsTheLastWrite(events[..|events| - 1], parse);
    }
  }

  /** No other program touches the file. */
  predicate LeftAlone(events: seq<Event>) {
    forall i :: 0 <= i < |events| ==> events[i].LoginRun? || events[i].LogoutRun?
  }

  lemma {:induction false} UntouchedFileHoldsTheLastLogin(events: seq<Event>, parse: Parser)
    requires LeftAlone(events)
    ensures FileAfter(events, parse) == match LastWrite(events, parse)
                                        case Some(i) => Stored(Issued(events[i], parse).value, false)
                                        case None => Absent
  {
    if events != [] {
      UntouchedFileHoldsTheLastLogin(events[..|events| - 1], parse);
    }
  }

  predicate BearerGoesOut(resolved: Result<Target, Refusal>) {
    resolved.Ok? && resolved.value.token.Some?
  }

  /** Over every run of logins, logouts and meddling, with the environment variable unset: a bearer that goes
      out is the token stored last and not logged out since, to the normalised base stored with it, which is
      https or loopback, and before it expires. Unless another program stored it, that is the last login's
      token, to that login's own base, before the expiry that login was granted. */
  lemma {:induction false} BearerIsTheLastLogins(events: seq<Event>, hub: Option<string>, nowMs: I64, parse: Parser)
    requires BearerGoesOut(ResolveTarget(None, hub, FileAfter(events, parse), nowMs, parse))
    ensures LastWrite(events, parse).Some?
    ensures var target := ResolveTarget(None, hub, FileAfter(events, parse), nowMs, parse).value;
            var stored := Stores(events[LastWrite(events, parse).value], parse).value;
            && target.token == Some(stored.token)
            && HubBase(stored.hubUrl, true, parse) == Ok(target.base)
            && Confidential(target.base, parse)
            && nowMs < stored.expiresAtMs
            && (hub.Some? ==> HubBase(hub.value, false, parse) == Ok(target.base))
    ensures var last := events[LastWrite(events, parse).value]; last.LoginRun? || last.Planted?
    ensures var target := ResolveTarget(None, hub, FileAfter(events, parse), nowMs, parse).value;
            var login := events[LastWrite(events, parse).value];
            login.LoginRun? ==>
              && target.token == Some(login.grant.value.token)
              && HubBase(login.hub, true, parse) == Ok(target.base)
              && InTime(nowMs, login.nowMs, login.grant.value.expiresIn)
  {
    FileHoldsTheLastWrite(events, parse);
    var login := events[LastWrite(events, parse).value];
    if login.LoginRun? {
      ExpiresInTime(nowMs, login.nowMs, login.grant.value.expiresIn);
      NormalizationIdempotent(login.hub, true, parse);
    }
  }

  /** And while no other program touches the file, the bearer goes out exactly when there is such a login, it
      has not expired and no other Hub is asked for. */
  lemma {:induction false} BearerGoesOutIff(events: seq<Event>, hub: Option<string>, nowMs: I64, parse: Parser)
    requires LeftAlone(events)
    ensures BearerGoesOut(ResolveTarget(None, hub, FileAfter(events, parse), nowMs, parse)) <==> (
              && LastWrite(events, parse).Some?
              && var login := events[LastWrite(events, parse).value];
                 && InTime(nowMs, login.nowMs, login.grant.value.expiresIn)
                 && (hub.Some? ==> HubBase(hub.value, false, parse) == HubBase(login.hub, true, parse)))
  {
    UntouchedFileHoldsTheLastLogin(events, parse);
    if LastWrite(events, parse).Some? {
      var login := events[LastWrite(events, parse).value];
      NormalizationIdempotent(login.hub, true, parse);
      ExpiresInTime(nowMs, login.nowMs, login.grant.value.expiresIn);
    }
  }

  /** Whatever the environment and the file: no bearer leaves in clear text. */
  lemma {:induction false} NoBearerInClear(envToken: Option<string>, hub: Option<string>, file: TokenFile, nowMs: I64,
                                           parse: Parser)
    requires ResolveTarget(envToken, hub, file, nowMs, parse).Ok?
    ensures var target := ResolveTarget(envToken, hub, file, nowMs, parse).value;
            target.token.Some? ==>
              && HubBase(target.base, true, parse) == Ok(target.base)
              && (|| (|target.base| >= 8 && target.base[..8] == "https://")
                  || (parse(target.base).Some? && parse(target.base).value.host.Some?
                      && parse(target.base).value.host.value in ["localhost", "127.0.0.1", "[::1]"]))
  {
    if envToken.Some? {
      NormalizationIdempotent(hub.value, true, parse);
      HubBaseIff(hub.value, true, HubBase(hub.value, true, parse).value, parse);
    } else if file.Stored? {
      NormalizationIdempotent(file.stored.hubUrl, true, parse);
      HubBaseIff(file.stored.hubUrl, true, HubBase(file.stored.hubUrl, true, parse).value, parse);
    }
  }

  /** Where a call goes and with what, from everything it depends on: the environment token with the Hub that is
      named, else the stored token to its own Hub, else nothing but the Hub that is named. */
  lemma {:induction false} TargetIff(envToken: Option<string>, hub: Option<string>, file: TokenFile, nowMs: I64,
                                     parse: Parser, target: Target)
    ensures ResolveTarget(envToken, hub, file, nowMs, parse) == Ok(target) <==>
              if envToken.Some? then
                hub.Some? && HubBase(hub.value, true, parse) == Ok(target.base) && target.token == envToken
              else if file.Stored? then
                && !file.open && nowMs < file.stored.expiresAtMs
                && HubBase(file.stored.hubUrl, true, parse) == Ok(target.base)
                && (hub.Some? ==> HubBase(hub.value, false, parse) == Ok(target.base))
                && target.token == Some(file.stored.token)
              else
                && file.Absent? && hub.Some?
                && HubBase(hub.value, false, parse) == Ok(target.base) && target.token == None
  {
  }

  /** Why a call is refused, where no URL is to blame. */
  lemma {:induction false} RefusalIff(envToken: Option<string>, hub: Option<string>, file: TokenFile, nowMs: I64,
                                      parse: Parser)
    ensures var resolved := ResolveTarget(envToken, hub, file, nowMs, parse);
            && (resolved == Err(NoHub) <==> hub.None? && (envToken.Some? || file.Absent?))
            && (resolved == Err(UnusableFile) <==> envToken.None? && file.Unusable?)
            && (resolved == Err(OpenFile) <==> envToken.None? && file.Stored? && file.open)
            && (resolved == Err(OtherHub) || resolved == Err(TokenExpired) ==>
                  envToken.None? && file.Stored? && !file.open && HubBase(file.stored.hubUrl, true, parse).Ok?)
            && (envToken.None? && file.Stored? && !file.open && HubBase(file.stored.hubUrl, true, parse).Ok?
                && (hub.Some? ==> HubBase(hub.value, false, parse).Ok?) ==>
                  var own := HubBase(file.stored.hubUrl, true, parse);
                  var other := hub.Some? && HubBase(hub.value, false, parse) != own;
                  && (resolved == Err(OtherHub) <==> other)
                  && (resolved == Err(TokenExpired) <==> !other && file.stored.expiresAtMs <= nowMs))
  {
  }
}
