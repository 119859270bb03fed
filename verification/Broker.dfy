/** The OAuth broker's signed-state protocol, internal/auth/broker_proxy.go: the proxy keeps no
    session, and carries each client's redirect and state through the upstream in a signed blob. */
module Broker {
  import opened Options
  import opened Text
  import opened Redirects
  import opened StateCodec

  // --- The parts outside the model ----------------------------------------------------------------

  /** The keyed hash under the process's own key, the JSON reader, and the URL parser. */
  datatype Env = Env(
    mac: seq<Byte> -> string,
    unmarshal: seq<Byte> -> Option<StateData>,
    parse: string -> Option<Url>)

  /** The reader undoes the writer; on other bytes it may do anything. */
  ghost predicate ReadsBack(env: Env) {
    forall d: StateData {:trigger Marshal(d)} :: env.unmarshal(Utf8(Marshal(d))) == Some(d)
  }

  /** No two texts have the same keyed hash. */
  ghost predicate CollisionFree(env: Env) {
    forall x, y :: env.mac(x) == env.mac(y) ==> x == y
  }

  // --- Signing and verifying ------------------------------------------------------------------------

  const SECOND := 1_000_000_000
  const MAX_STATE_AGE := 600 * SECOND
  const CLOCK_SKEW := 60 * SECOND
  const MAX_OAUTH_FIELD := 4096

  datatype StateError = NotDecodable | NotParseable | SignatureMismatch | Expired

  datatype Verified = Accepted(redirect: string, state: string) | Rejected(why: StateError)

  function StateMac(env: Env, d: StateData): string {
    env.mac(Canonical(d))
  }

  /** The record signed at time now, in nanoseconds since the epoch. */
  function Signed(env: Env, redirect: string, state: string, nonce: string, now: nat): StateData {
    var d := StateData(redirect, state, nonce, now / SECOND, "");
    d.(sig := StateMac(env, d))
  }

  predicate Fresh(timestamp: int, now: int) {
    -CLOCK_SKEW <= now - timestamp * SECOND <= MAX_STATE_AGE
  }

  method SignState(env: Env, redirect: string, state: string, nonce: string, now: nat) returns (blob: string)
    ensures blob == Blob(Signed(env, redirect, state, nonce, now))
    ensures exists d: StateData ::
              && Decode64(blob) == Some(Utf8(Marshal(d))) && d.sig == env.mac(Canonical(d))
              && d.redirect == redirect && d.state == state && d.nonce == nonce
              && d.timestamp * 1_000_000_000 <= now < (d.timestamp + 1) * 1_000_000_000
  {
    var data := StateData(redirect, state, nonce, now / SECOND, "");
    var mac := StateMac(env, data);
    data := data.(sig := mac);
    blob := Encode64(Utf8(Marshal(data)));
    DecodeOfEncode(Utf8(Marshal(data)));
    assert Canonical(data) == Canonical(data.(sig := ""));
  }

  function VerifyState(env: Env, encoded: string, now: int): Verified {
    match Decode64(encoded)
    case None => Rejected(NotDecodable)
    case Some(raw) =>
      match env.unmarshal(raw)
      case None => Rejected(NotParseable)
      case Some(d) =>
        if d.sig != StateMac(env, d) then Rejected(SignatureMismatch)
        else if !Fresh(d.timestamp, now) then Rejected(Expired)
        else Accepted(d.redirect, d.state)
  }

  /** The record a callback's blob reads as. */
  function Carried(env: Env, blob: string): Option<StateData> {
    match Decode64(blob)
    case None => None
    case Some(raw) => env.unmarshal(raw)
  }

  lemma BlobReads(env: Env, d: StateData)
    requires ReadsBack(env)
    ensures Decode64(Blob(d)) == Some(Utf8(Marshal(d))) && env.unmarshal(Utf8(Marshal(d))) == Some(d)
  {
    DecodeOfEncode(Utf8(Marshal(d)));
  }

  /** A signed blob verifies to its own redirect and state exactly within the window: not more
      than a minute before its second, not more than ten minutes after. Outside it is expired,
      never anything else. */
  lemma SignVerify(env: Env, redirect: string, state: string, nonce: string, signedAt: nat, now: int)
    requires ReadsBack(env)
    ensures VerifyState(env, Blob(Signed(env, redirect, state, nonce, signedAt)), now) ==
              var second := signedAt / 1_000_000_000 * 1_000_000_000;
              if -60_000_000_000 <= now - second <= 600_000_000_000 then Accepted(redirect, state)
              else Rejected(Expired)
  {
    var d := Signed(env, redirect, state, nonce, signedAt);
    BlobReads(env, d);
    assert d.(sig := "") == StateData(redirect, state, nonce, signedAt / SECOND, "");
  }

  // --- The handlers -----------------------------------------------------------------------------------

  datatype Config = Config(
    allowed: seq<string>,
    upstreamAuth: string,
    clientId: string,
    publicUrl: string,
    scopes: seq<string>)

  datatype AuthorizeRequest = AuthorizeRequest(
    isGet: bool, redirectUri: string, state: string, challenge: string, challengeMethod: string)

  datatype CallbackRequest = CallbackRequest(isGet: bool, error: string, code: string, state: string)

  datatype Response = Status(code: int) | RedirectTo(url: Url)

  function JoinScopes(scopes: seq<string>): string {
    if scopes == [] then "" else if |scopes| == 1 then scopes[0] else scopes[0] + " " + JoinScopes(scopes[1..])
  }

  /** The words of a text, cut at its spaces. */
  function Words(s: string): (words: seq<string>)
    ensures words != []
  {
    if s == "" then [""]
    else
      var rest := Words(s[1..]);
      if s[0] == ' ' then [""] + rest else [[s[0]] + rest[0]] + rest[1..]
  }

  lemma {:induction false} WordsOfOne(a: string)
    requires ' ' !in a
    ensures Words(a) == [a]
  {
    if a != "" {
      WordsOfOne(a[1..]);
      assert [a[0]] + a[1..] == a;
    }
  }

  lemma {:induction false} WordsOfTwo(a: string, s: string)
    requires ' ' !in a
    ensures Words(a + " " + s) == [a] + Words(s)
  {
    var t := a + " " + s;
    if a == "" {
      assert t[1..] == s;
    } else {
      WordsOfTwo(a[1..], s);
      assert t[1..] == a[1..] + " " + s && t[0] == a[0];
      assert Words(t[1..]) == [a[1..]] + Words(s);
      assert Words(t[1..])[1..] == Words(s) && [a[0]] + a[1..] == a;
    }
  }

  /** The scopes come back when the joined text is cut at its spaces. */
  lemma {:induction false} ScopesComeBack(scopes: seq<string>)
    requires scopes != [] && forall i :: 0 <= i < |scopes| ==> ' ' !in scopes[i]
    ensures Words(JoinScopes(scopes)) == scopes
  {
    if |scopes| == 1 {
      WordsOfOne(scopes[0]);
    } else {
      ScopesComeBack(scopes[1..]);
      WordsOfTwo(scopes[0], JoinScopes(scopes[1..]));
    }
  }

  /** Where the client is sent to log in: our client, our callback, the client's own challenge. */
  function UpstreamUrl(cfg: Config, up: Url, challenge: string, blob: string): Url {
    var q := up.query["client_id" := [cfg.clientId]]["response_type" := ["code"]]
             ["redirect_uri" := [cfg.publicUrl + "/oauth/callback"]]["code_challenge" := [challenge]]
             ["code_challenge_method" := ["S256"]]["state" := [blob]];
    up.(query := if JoinScopes(cfg.scopes) != "" then q["scope" := [JoinScopes(cfg.scopes)]] else q)
  }

  /** None for the nonce means that the random source failed. */
  function Authorized(env: Env, cfg: Config, req: AuthorizeRequest, nonce: Option<string>, now: nat): Response {
    if !req.isGet then Status(405)
    else if Verdict(env.parse, cfg.allowed, req.redirectUri).Some? then Status(400)
    else if |Utf8(req.challenge)| > MAX_OAUTH_FIELD || req.challenge == "" || req.challengeMethod != "S256" then
      Status(400)
    else if nonce.None? then Status(500)
    else
      match env.parse(cfg.upstreamAuth)
      case None => Status(500)
      case Some(up) =>
        RedirectTo(UpstreamUrl(cfg, up, req.challenge, Blob(Signed(env, req.redirectUri, req.state, nonce.value, now))))
  }

  /** The URL's query gives the parameter that value and no other. */
  predicate SetTo(url: Url, name: string, value: string) {
    name in url.query && url.query[name] == [value]
  }

  lemma Utf8Empty(s: string)
    ensures |Utf8(s)| == 0 <==> s == ""
  {
  }

  /** The parameters the broker sets on its way to the upstream. */
  const OURS := {
    "client_id", "response_type", "redirect_uri", "code_challenge", "code_challenge_method", "state", "scope"}

  lemma UpstreamUrlIs(cfg: Config, up: Url, challenge: string, blob: string)
    ensures var url := UpstreamUrl(cfg, up, challenge, blob);
            && url.scheme == up.scheme && url.host == up.host && url.fragment == up.fragment && url.rest == up.rest
            && SetTo(url, "client_id", cfg.clientId) && SetTo(url, "response_type", "code")
            && SetTo(url, "redirect_uri", cfg.publicUrl + "/oauth/callback")
            && SetTo(url, "code_challenge", challenge) && SetTo(url, "code_challenge_method", "S256")
            && SetTo(url, "state", blob)
            && (JoinScopes(cfg.scopes) != "" ==> SetTo(url, "scope", JoinScopes(cfg.scopes)))
            && url.query - OURS == up.query - OURS
            && (JoinScopes(cfg.scopes) == "" ==> url.query - (OURS - {"scope"}) == up.query - (OURS - {"scope"}))
  {
    var url := UpstreamUrl(cfg, up, challenge, blob);
    assert JoinScopes(cfg.scopes) == "" ==>
        (url.query - (OURS - {"scope"})).Keys == (up.query - (OURS - {"scope"})).Keys;
    assert (url.query - OURS).Keys == (up.query - OURS).Keys;
  }

  method HandleAuthorize(env: Env, cfg: Config, req: AuthorizeRequest, nonce: Option<string>, now: nat)
    returns (r: Response)
    ensures r == Authorized(env, cfg, req, nonce, now)
    ensures r == Status(405) <==> !req.isGet
    ensures r == Status(400) <==>
              && req.isGet
              && (Verdict(env.parse, cfg.allowed, req.redirectUri).Some?
                  || req.challengeMethod != "S256" || |Utf8(req.challenge)| == 0 || |Utf8(req.challenge)| > 4096)
    ensures r.Status? ==> r.code in {400, 405, 500}
    ensures r.RedirectTo? <==>
              && req.isGet && Verdict(env.parse, cfg.allowed, req.redirectUri).None?
              && req.challengeMethod == "S256" && 0 < |Utf8(req.challenge)| <= 4096
              && nonce.Some? && env.parse(cfg.upstreamAuth).Some?
    ensures r.RedirectTo? ==>
              var up := env.parse(cfg.upstreamAuth).value;
              && r.url.scheme == up.scheme && r.url.host == up.host && r.url.rest == up.rest
              && r.url.fragment == up.fragment && r.url.query - OURS == up.query - OURS
              && (JoinScopes(cfg.scopes) == "" ==> r.url.query - (OURS - {"scope"}) == up.query - (OURS - {"scope"}))
              && (JoinScopes(cfg.scopes) != "" ==> SetTo(r.url, "scope", JoinScopes(cfg.scopes)))
              && SetTo(r.url, "client_id", cfg.clientId) && SetTo(r.url, "response_type", "code")
              && SetTo(r.url, "redirect_uri", cfg.publicUrl + "/oauth/callback")
              && SetTo(r.url, "code_challenge", req.challenge) && SetTo(r.url, "code_challenge_method", "S256")
              && SetTo(r.url, "state", Blob(Signed(env, req.redirectUri, req.state, nonce.value, now)))
  {
    if !req.isGet {
      return Status(405);
    }
    Utf8Empty(req.challenge);
    if nonce.Some? && env.parse(cfg.upstreamAuth).Some? {
      UpstreamUrlIs(cfg, env.parse(cfg.upstreamAuth).value, req.challenge,
                    Blob(Signed(env, req.redirectUri, req.state, nonce.value, now)));
    }
    var bad := ValidateClientRedirect(env.parse, cfg.allowed, req.redirectUri);
    if bad.Some? {
      return Status(400);
    }
    if |Utf8(req.challenge)| > MAX_OAUTH_FIELD || req.challenge == "" || req.challengeMethod != "S256" {
      return Status(400);
    }
    if nonce.None? {
      return Status(500);
    }
    var signed := SignState(env, req.redirectUri, req.state, nonce.value, now);
    var up := env.parse(cfg.upstreamAuth);
    if up.None? {
      return Status(500);
    }
    var uq := up.value.query;
    uq := uq["client_id" := [cfg.clientId]];
    uq := uq["response_type" := ["code"]];
    uq := uq["redirect_uri" := [cfg.publicUrl + "/oauth/callback"]];
    uq := uq["code_challenge" := [req.challenge]];
    uq := uq["code_challenge_method" := ["S256"]];
    uq := uq["state" := [signed]];
    var s := JoinScopes(cfg.scopes);
    if s != "" {
      uq := uq["scope" := [s]];
    }
    return RedirectTo(up.value.(query := uq));
  }

  /** The client's own redirect with the code and, unless it is empty, the client's state. */
  function Destination(dest: Url, code: string, state: string): Url {
    var q := dest.query["code" := [code]];
    dest.(query := if state != "" then q["state" := [state]] else q)
  }

  /** The destination carries the code, the state if there is one and the redirect's own otherwise,
      and the client's own redirect unchanged. */
  lemma DestinationIs(dest: Url, code: string, state: string)
    ensures var d := Destination(dest, code, state);
            && d.scheme == dest.scheme && d.host == dest.host && d.fragment == dest.fragment && d.rest == dest.rest
            && "code" in d.query && d.query["code"] == [code]
            && (state != "" ==> "state" in d.query && d.query["state"] == [state])
            && d.query - {"code", "state"} == dest.query - {"code", "state"}
            && (state == "" ==> d.query - {"code"} == dest.query - {"code"})
  {
    var d := Destination(dest, code, state);
    assert (d.query - {"code"}).Keys - {"state"} == (dest.query - {"code"}).Keys - {"state"};
    assert (d.query - {"code", "state"}).Keys == (dest.query - {"code", "state"}).Keys;
  }

  function CalledBack(env: Env, cfg: Config, req: CallbackRequest, now: int): Response {
    if !req.isGet then Status(405)
    else if req.error != "" then Status(400)
    else if req.code == "" || |Utf8(req.code)| > MAX_OAUTH_FIELD then Status(400)
    else
      match VerifyState(env, req.state, now)
      case Rejected(_) => Status(400)
      case Accepted(redirect, state) =>
        if Verdict(env.parse, cfg.allowed, redirect).Some? then Status(400)
        else
          match env.parse(redirect)
          case None => Status(400)
          case Some(dest) => RedirectTo(Destination(dest, req.code, state))
  }

  method HandleCallback(env: Env, cfg: Config, req: CallbackRequest, now: int) returns (r: Response)
    ensures r == CalledBack(env, cfg, req, now)
    ensures r == Status(405) <==> !req.isGet
    ensures r.Status? ==> r.code in {400, 405}
    ensures r.RedirectTo? <==>
              && req.isGet && req.error == "" && 0 < |Utf8(req.code)| <= 4096
              && Carried(env, req.state).Some?
              && var d := Carried(env, req.state).value;
              && d.sig == env.mac(Canonical(d))
              && -60_000_000_000 <= now - d.timestamp * 1_000_000_000 <= 600_000_000_000
              && Verdict(env.parse, cfg.allowed, d.redirect).None?
    ensures r.RedirectTo? ==>
              var d := Carried(env, req.state).value;
              env.parse(d.redirect).Some? &&
              var dest := env.parse(d.redirect).value;
              && r.url.scheme == dest.scheme && r.url.host == dest.host && r.url.rest == dest.rest
              && r.url.fragment == dest.fragment
              && SetTo(r.url, "code", req.code) && (d.state != "" ==> SetTo(r.url, "state", d.state))
              && r.url.query - {"code", "state"} == dest.query - {"code", "state"}
              && (d.state == "" ==> r.url.query - {"code"} == dest.query - {"code"})
  {
    if !req.isGet {
      return Status(405);
    }
    if req.error != "" {
      return Status(400);
    }
    if req.code == "" || |Utf8(req.code)| > MAX_OAUTH_FIELD {
      return Status(400);
    }
    Utf8Empty(req.code);
    var verified := VerifyState(env, req.state, now);
    if verified.Rejected? {
      return Status(400);
    }
    var bad := ValidateClientRedirect(env.parse, cfg.allowed, verified.redirect);
    if bad.Some? {
      return Status(400);
    }
    var dest := env.parse(verified.redirect);
    if dest.None? {
      return Status(400);
    }
    var dq := dest.value.query;
    dq := dq["code" := [req.code]];
    if verified.state != "" {
      dq := dq["state" := [verified.state]];
    }
    DestinationIs(dest.value, req.code, verified.state);
    return RedirectTo(dest.value.(query := dq));
  }

  // --- Runs -----------------------------------------------------------------------------------------------

  /** What the world has seen: the clock in nanoseconds, the records signed, the redirects sent
      from the callback. */
  datatype World = World(clock: nat, issued: seq<StateData>, sent: seq<Delivery>)

  /** A redirect sent, with the request that caused it, when, and how many records had been
      signed by then. */
  datatype Delivery = Delivery(req: CallbackRequest, url: Url, at: nat, issuedBefore: nat)

  datatype Event =
    | Tick(nanoseconds: nat)
    | Authorize(request: AuthorizeRequest, nonce: Option<string>)
    | Callback(req: CallbackRequest)

  function Next(env: Env, cfg: Config, w: World, e: Event): World {
    match e
    case Tick(n) => w.(clock := w.clock + n)
    case Authorize(req, nonce) =>
      if Authorized(env, cfg, req, nonce, w.clock).RedirectTo? then
        w.(issued := w.issued + [Signed(env, req.redirectUri, req.state, nonce.value, w.clock)])
      else w
    case Callback(req) =>
      match CalledBack(env, cfg, req, w.clock)
      case Status(_) => w
      case RedirectTo(url) => w.(sent := w.sent + [Delivery(req, url, w.clock, |w.issued|)])
  }

  /** Unforgeability: whoever makes up a callback may put anything into it, but a right signature
      only by having seen it issued. */
  predicate Possible(env: Env, w: World, e: Event) {
    e.Callback? && Carried(env, e.req.state).Some? ==>
      var d := Carried(env, e.req.state).value;
      d.sig == StateMac(env, d) ==> exists i :: 0 <= i < |w.issued| && w.issued[i].sig == d.sig
  }

  function Run(env: Env, cfg: Config, w: World, es: seq<Event>): World {
    if es == [] then w else Next(env, cfg, Run(env, cfg, w, es[..|es| - 1]), es[|es| - 1])
  }

  predicate PossibleRun(env: Env, cfg: Config, w: World, es: seq<Event>) {
    es == [] ||
    (PossibleRun(env, cfg, w, es[..|es| - 1])
     && Possible(env, Run(env, cfg, w, es[..|es| - 1]), es[|es| - 1]))
  }

  // --- What every step keeps --------------------------------------------------------------------------------

  /** A record signed for a redirect the guard accepted, not after now. */
  predicate Genuine(env: Env, cfg: Config, d: StateData, now: nat) {
    && d.sig == StateMac(env, d)
    && Verdict(env.parse, cfg.allowed, d.redirect).None?
    && d.timestamp * SECOND <= now
  }

  /** A redirect that answers record d: sent while d was fresh, to d's redirect, with the
      request's code and d's state. */
  predicate Answers(env: Env, x: Delivery, d: StateData) {
    && Fresh(d.timestamp, x.at)
    && env.parse(d.redirect).Some?
    && x.url == Destination(env.parse(d.redirect).value, x.req.code, d.state)
  }

  predicate Justified(env: Env, w: World, x: Delivery) {
    x.issuedBefore <= |w.issued| && exists i :: 0 <= i < x.issuedBefore && Answers(env, x, w.issued[i])
  }

  predicate Sound(env: Env, cfg: Config, w: World) {
    && (forall i :: 0 <= i < |w.issued| ==> Genuine(env, cfg, w.issued[i], w.clock))
    && (forall k :: 0 <= k < |w.sent| ==> Justified(env, w, w.sent[k]))
  }

  lemma SignedIsGenuine(env: Env, cfg: Config, redirect: string, state: string, nonce: string, now: nat)
    requires Verdict(env.parse, cfg.allowed, redirect).None?
    ensures Genuine(env, cfg, Signed(env, redirect, state, nonce, now), now)
  {
    var d := Signed(env, redirect, state, nonce, now);
    assert d.(sig := "") == StateData(redirect, state, nonce, now / SECOND, "");
    assert now / SECOND * SECOND <= now;
  }

  // A redirect from the callback goes where some issued record says.
  lemma CallbackAnswers(env: Env, cfg: Config, w: World, req: CallbackRequest) returns (i: nat)
    requires CollisionFree(env) && Sound(env, cfg, w) && Possible(env, w, Callback(req))
    requires CalledBack(env, cfg, req, w.clock).RedirectTo?
    ensures i < |w.issued|
    ensures Answers(env, Delivery(req, CalledBack(env, cfg, req, w.clock).url, w.clock, |w.issued|), w.issued[i])
  {
    var d := Carried(env, req.state).value;
    i :| 0 <= i < |w.issued| && w.issued[i].sig == d.sig;
    assert Genuine(env, cfg, w.issued[i], w.clock);
    assert Canonical(w.issued[i]) == Canonical(d);
    CanonicalUnambiguous(w.issued[i], d);
  }

  lemma StillJustified(env: Env, w: World, w': World)
    requires w.issued <= w'.issued
    requires forall k :: 0 <= k < |w.sent| ==> Justified(env, w, w.sent[k])
    ensures forall k :: 0 <= k < |w.sent| ==> Justified(env, w', w.sent[k])
  {
    forall k | 0 <= k < |w.sent| ensures Justified(env, w', w.sent[k]) {
      var x := w.sent[k];
      var i :| 0 <= i < x.issuedBefore && Answers(env, x, w.issued[i]);
      assert Answers(env, x, w'.issued[i]);
    }
  }

  lemma TickKeepsSound(env: Env, cfg: Config, w: World, n: nat)
    requires Sound(env, cfg, w)
    ensures Sound(env, cfg, Next(env, cfg, w, Tick(n)))
  {
    var w' := w.(clock := w.clock + n);
    StillJustified(env, w, w');
    forall i | 0 <= i < |w.issued| ensures Genuine(env, cfg, w.issued[i], w'.clock) {
      assert Genuine(env, cfg, w.issued[i], w.clock);
    }
  }

  lemma IssueKeepsSound(env: Env, cfg: Config, w: World, d: StateData)
    requires Sound(env, cfg, w) && Genuine(env, cfg, d, w.clock)
    ensures Sound(env, cfg, w.(issued := w.issued + [d]))
  {
    StillJustified(env, w, w.(issued := w.issued + [d]));
  }

  lemma SendKeepsSound(env: Env, cfg: Config, w: World, x: Delivery)
    requires Sound(env, cfg, w) && Justified(env, w, x)
    ensures Sound(env, cfg, w.(sent := w.sent + [x]))
  {
    var w' := w.(sent := w.sent + [x]);
    StillJustified(env, w, w');
    assert Justified(env, w', x);
  }

  /** Every step keeps the invariant: a login, a tick of the clock, or any callback that its maker
      can come by. */
  lemma StepKeepsSound(env: Env, cfg: Config, w: World, e: Event)
    requires CollisionFree(env) && Sound(env, cfg, w) && Possible(env, w, e)
    ensures Sound(env, cfg, Next(env, cfg, w, e))
  {
    match e
    case Tick(n) => TickKeepsSound(env, cfg, w, n);
    case Authorize(req, nonce) =>
      if Authorized(env, cfg, req, nonce, w.clock).RedirectTo? {
        SignedIsGenuine(env, cfg, req.redirectUri, req.state, nonce.value, w.clock);
        IssueKeepsSound(env, cfg, w, Signed(env, req.redirectUri, req.state, nonce.value, w.clock));
      }
    case Callback(req) =>
      if CalledBack(env, cfg, req, w.clock).RedirectTo? {
        var i := CallbackAnswers(env, cfg, w, req);
        SendKeepsSound(env, cfg, w, Delivery(req, CalledBack(env, cfg, req, w.clock).url, w.clock, |w.issued|));
      }
  }

  /** Safety over all runs: in every interleaving of logins, ticks and made-up callbacks, every
      redirect sent answers a record signed before it for an accepted redirect, within the window. */
  lemma {:induction false} EveryRunIsSound(env: Env, cfg: Config, start: nat, es: seq<Event>)
    requires CollisionFree(env) && PossibleRun(env, cfg, World(start, [], []), es)
    ensures Sound(env, cfg, Run(env, cfg, World(start, [], []), es))
  {
    if es == [] {
    } else {
      EveryRunIsSound(env, cfg, start, es[..|es| - 1]);
      StepKeepsSound(env, cfg, Run(env, cfg, World(start, [], []), es[..|es| - 1]), es[|es| - 1]);
    }
  }

  // --- Honest flows -------------------------------------------------------------------------------------------

  /** A callback from an upstream that reports success. */
  predicate Successful(req: CallbackRequest) {
    req.isGet && req.error == "" && req.code != "" && |Utf8(req.code)| <= 4096
  }

  /** The callback sends the browser to the redirect, with its own code and that state. */
  predicate Delivers(env: Env, cfg: Config, w: World, req: CallbackRequest, redirect: string, state: string) {
    && env.parse(redirect).Some?
    && Next(env, cfg, w, Callback(req)).sent ==
         w.sent + [Delivery(req, Destination(env.parse(redirect).value, req.code, state), w.clock, |w.issued|)]
  }

  /** A callback that brings a genuine record's own blob back in time is never refused: the second
      look at the redirect passes, and the client gets its code and its state at its redirect. */
  lemma HonestCallback(env: Env, cfg: Config, d: StateData, req: CallbackRequest, now: nat)
    requires ReadsBack(env) && Genuine(env, cfg, d, now) && Fresh(d.timestamp, now)
    requires Successful(req) && req.state == Blob(d)
    ensures env.parse(d.redirect).Some?
    ensures CalledBack(env, cfg, req, now) == RedirectTo(Destination(env.parse(d.redirect).value, req.code, d.state))
  {
    BlobReads(env, d);
  }

  lemma HonestInSoundWorld(env: Env, cfg: Config, w: World, i: nat, req: CallbackRequest)
    requires ReadsBack(env) && Sound(env, cfg, w) && i < |w.issued|
    requires Fresh(w.issued[i].timestamp, w.clock) && Successful(req) && req.state == Blob(w.issued[i])
    ensures Possible(env, w, Callback(req))
    ensures Delivers(env, cfg, w, req, w.issued[i].redirect, w.issued[i].state)
  {
    assert Genuine(env, cfg, w.issued[i], w.clock);
    HonestCallback(env, cfg, w.issued[i], req, w.clock);
    BlobReads(env, w.issued[i]);
  }

  /** Honest flows complete, whatever else happens: after any possible run, every record signed in
      it is answered by the callback that brings its blob back in time, at its own redirect, with
      that callback's code and the record's own state. */
  lemma HonestFlowsComplete(env: Env, cfg: Config, start: nat, es: seq<Event>)
    requires ReadsBack(env) && CollisionFree(env) && PossibleRun(env, cfg, World(start, [], []), es)
    ensures var w := Run(env, cfg, World(start, [], []), es);
            forall i, req :: 0 <= i < |w.issued| && Fresh(w.issued[i].timestamp, w.clock)
                             && Successful(req) && req.state == Blob(w.issued[i]) ==>
              && Possible(env, w, Callback(req))
              && Delivers(env, cfg, w, req, w.issued[i].redirect, w.issued[i].state)
  {
    EveryRunIsSound(env, cfg, start, es);
    var w := Run(env, cfg, World(start, [], []), es);
    forall i, req | 0 <= i < |w.issued| && Fresh(w.issued[i].timestamp, w.clock)
                    && Successful(req) && req.state == Blob(w.issued[i])
      ensures Possible(env, w, Callback(req)) && Delivers(env, cfg, w, req, w.issued[i].redirect, w.issued[i].state)
    {
      HonestInSoundWorld(env, cfg, w, i, req);
    }
  }

  lemma {:induction false} RunAfter(env: Env, cfg: Config, w: World, a: seq<Event>, b: seq<Event>)
    ensures Run(env, cfg, w, a + b) == Run(env, cfg, Run(env, cfg, w, a), b)
  {
    if b == [] {
      assert a + b == a;
    } else {
      assert (a + b)[..|a + b| - 1] == a + b[..|b| - 1];
      RunAfter(env, cfg, w, a, b[..|b| - 1]);
    }
  }

  // Nothing signed is forgotten, and the clock never goes back.
  lemma {:induction false} RunGrows(env: Env, cfg: Config, w: World, es: seq<Event>)
    ensures w.issued <= Run(env, cfg, w, es).issued && w.clock <= Run(env, cfg, w, es).clock
  {
    if es == [] {
    } else {
      RunGrows(env, cfg, w, es[..|es| - 1]);
    }
  }

  /** A login that is let through sends the browser to the upstream, with our client, our callback
      and the client's challenge, and with the blob of the one record it adds: the client's own
      redirect and state. */
  lemma LoginCarriesItsRecord(env: Env, cfg: Config, w: World, req: AuthorizeRequest, nonce: Option<string>)
    requires Authorized(env, cfg, req, nonce, w.clock).RedirectTo?
    ensures env.parse(cfg.upstreamAuth).Some?
    ensures var up, url := env.parse(cfg.upstreamAuth).value, Authorized(env, cfg, req, nonce, w.clock).url;
            var issued := Next(env, cfg, w, Authorize(req, nonce)).issued;
            && |issued| == |w.issued| + 1 && w.issued <= issued
            && var d := issued[|w.issued|];
            && d.redirect == req.redirectUri && d.state == req.state && d.timestamp == w.clock / SECOND
            && url.scheme == up.scheme && url.host == up.host && url.fragment == up.fragment && url.rest == up.rest
            && {"state", "code_challenge", "client_id", "redirect_uri"} <= url.query.Keys
            && url.query["state"] == [Blob(d)] && url.query["code_challenge"] == [req.challenge]
            && url.query["client_id"] == [cfg.clientId]
            && url.query["redirect_uri"] == [cfg.publicUrl + "/oauth/callback"]
  {
    var d := Signed(env, req.redirectUri, req.state, nonce.value, w.clock);
    UpstreamUrlIs(cfg, env.parse(cfg.upstreamAuth).value, req.challenge, Blob(d));
    assert Next(env, cfg, w, Authorize(req, nonce)).issued == w.issued + [d];
  }

  /** The state that a login let through in world w hands to the upstream. */
  predicate HandsOut(env: Env, cfg: Config, w: World, login: AuthorizeRequest, nonce: Option<string>, blob: string) {
    var sent := Authorized(env, cfg, login, nonce, w.clock);
    sent.RedirectTo? && "state" in sent.url.query && sent.url.query["state"] == [blob]
  }

  lemma LoginThenMore(env: Env, cfg: Config, w0: World, login: AuthorizeRequest, nonce: Option<string>,
                      after: seq<Event>, blob: string)
    requires HandsOut(env, cfg, w0, login, nonce, blob)
    ensures var w := Run(env, cfg, Next(env, cfg, w0, Authorize(login, nonce)), after);
            && |w0.issued| < |w.issued| && w0.clock <= w.clock
            && var d := w.issued[|w0.issued|];
            && blob == Blob(d) && d.redirect == login.redirectUri && d.state == login.state
            && d.timestamp == w0.clock / SECOND
  {
    var w1 := Next(env, cfg, w0, Authorize(login, nonce));
    LoginCarriesItsRecord(env, cfg, w0, login, nonce);
    RunGrows(env, cfg, w1, after);
    assert Run(env, cfg, w1, after).issued[|w0.issued|] == w1.issued[|w0.issued|];
  }

  /** Every honest login completes: whatever happens before it and after it, when the state it sent
      upstream comes back within ten minutes of its second, the browser goes to that login's own
      redirect, with the callback's code and that login's own state. */
  lemma LoginCompletes(env: Env, cfg: Config, start: nat, es: seq<Event>, before: seq<Event>,
                       login: AuthorizeRequest, nonce: Option<string>, after: seq<Event>, req: CallbackRequest)
    requires ReadsBack(env) && CollisionFree(env) && PossibleRun(env, cfg, World(start, [], []), es)
    ensures var w0 := Run(env, cfg, World(start, [], []), before);
            var w := Run(env, cfg, World(start, [], []), es);
            && es == before + [Authorize(login, nonce)] + after
            && HandsOut(env, cfg, w0, login, nonce, req.state) && Successful(req)
            && w.clock - w0.clock / 1_000_000_000 * 1_000_000_000 <= 600_000_000_000
            ==> Delivers(env, cfg, w, req, login.redirectUri, login.state)
  {
    var empty := World(start, [], []);
    var w0, w := Run(env, cfg, empty, before), Run(env, cfg, empty, es);
    if && es == before + [Authorize(login, nonce)] + after
       && HandsOut(env, cfg, w0, login, nonce, req.state) && Successful(req)
       && w.clock - w0.clock / SECOND * SECOND <= 600 * SECOND
    {
      assert (before + [Authorize(login, nonce)])[..|before|] == before;
      RunAfter(env, cfg, empty, before + [Authorize(login, nonce)], after);
      LoginThenMore(env, cfg, w0, login, nonce, after, req.state);
      EveryRunIsSound(env, cfg, start, es);
      HonestInSoundWorld(env, cfg, w, |w0.issued|, req);
    }
  }

  /** Flows never cross: blobs of records that differ in any field, be it only the nonce, differ,
      so no client's blob stands for another's flow. */
  lemma FlowsNeverCross(env: Env, r: string, s: string, n: string, at: nat,
                        r': string, s': string, n': string, at': nat)
    requires r != r' || s != s' || n != n' || at / SECOND != at' / SECOND
    ensures Blob(Signed(env, r, s, n, at)) != Blob(Signed(env, r', s', n', at'))
  {
    if Blob(Signed(env, r, s, n, at)) == Blob(Signed(env, r', s', n', at')) {
      BlobInjective(Signed(env, r, s, n, at), Signed(env, r', s', n', at'));
    }
  }

  // --- The assumptions can be met --------------------------------------------------------------------------------

  ghost function SomeReader(raw: seq<Byte>): Option<StateData> {
    if d :| Utf8(Marshal(d)) == raw then Some(d) else None
  }

  lemma SomeReaderReads(d: StateData)
    ensures SomeReader(Utf8(Marshal(d))) == Some(d)
  {
    var raw := Utf8(Marshal(d));
    forall e | Utf8(Marshal(e)) == raw ensures e == d {
      Utf8Injective(Marshal(e), Marshal(d));
      MarshalInjective(e, d);
    }
  }

  function AsText(raw: seq<Byte>): (s: string)
    ensures |s| == |raw| && forall i :: 0 <= i < |raw| ==> s[i] as int == raw[i]
  {
    seq(|raw|, i requires 0 <= i < |raw| => raw[i] as char)
  }

  /** The assumptions about the parts outside the model can be met together. */
  lemma AssumptionsCanBeMet(parse: string -> Option<Url>)
    ensures exists env: Env :: env.parse == parse && ReadsBack(env) && CollisionFree(env)
  {
    var env := Env(raw => AsText(raw), raw => SomeReader(raw), parse);
    forall d: StateData ensures env.unmarshal(Utf8(Marshal(d))) == Some(d) {
      SomeReaderReads(d);
    }
    forall x: seq<Byte>, y: seq<Byte> | env.mac(x) == env.mac(y) ensures x == y {
      assert AsText(x) == AsText(y);
      assert forall i :: 0 <= i < |x| ==> x[i] == AsText(x)[i] as int == AsText(y)[i] as int == y[i];
    }
    assert ReadsBack(env) && CollisionFree(env);
  }
}
