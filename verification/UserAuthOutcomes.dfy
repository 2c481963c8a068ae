/** Who gets in, who is cut off and what is counted: the outcome of every message in every run of the server. */
module UserAuthOutcomes {
  import opened NameLists
  import opened Options
  import opened UserAuth

  // ----- Texts and lookups, without the functions that compute them -----

  /** The bytes of a text. */
  predicate Spells(t: Text, s: string) {
    |t| == |s| && forall i :: 0 <= i < |s| ==> t[i] == s[i] as int
  }

  lemma Constants(t: Text)
    ensures t == SSH_USERAUTH <==> Spells(t, "ssh-userauth")
    ensures t == SSH_CONNECTION <==> Spells(t, "ssh-connection")
    ensures t == NONE_METHOD <==> Spells(t, "none")
  {
  }

  /** `bare` is the part of `s` in front of its first slash or colon. */
  predicate IsBare(s: Text, bare: Text) {
    && bare <= s && '/' as int !in bare && ':' as int !in bare
    && (|bare| < |s| ==> s[|bare|] == '/' as int || s[|bare|] == ':' as int)
  }

  lemma {:induction false} CutAtStops(s: Text, c: int)
    requires 0 <= c < 0x100
    ensures var r := CutAt(s, c); r <= s && c !in r && (|r| < |s| ==> s[|r|] == c)
  {
    if s != [] && s[0] != c { CutAtStops(s[1..], c); }
  }

  lemma BareIff(s: Text, bare: Text)
    ensures BareUser(s) == bare <==> IsBare(s, bare)
  {
    CutAtStops(s, SLASH);
    CutAtStops(CutAt(s, SLASH), COLON);
    assert IsBare(s, BareUser(s));
    if IsBare(s, bare) { BareIsUnique(s, bare, BareUser(s)); }
  }

  lemma BareIsUnique(s: Text, a: Text, b: Text)
    requires IsBare(s, a) && IsBare(s, b)
    ensures a == b
  {
    assert |a| == |b|;
  }

  /** A method of that name is enabled; "none" only once. */
  predicate Enabled(m: Method, noneUsed: bool, name: Text) {
    m.name == name && m.enabled && (Spells(name, "none") ==> !noneUsed)
  }

  /** `m` is the first enabled method of the name. */
  ghost predicate IsFirstEnabled(ms: seq<Method>, noneUsed: bool, name: Text, m: Method) {
    exists i :: 0 <= i < |ms| && ms[i] == m && Enabled(m, noneUsed, name)
                && forall j :: 0 <= j < i ==> !Enabled(ms[j], noneUsed, name)
  }

  lemma {:induction false} LookupIff(ms: seq<Method>, noneUsed: bool, name: Text, m: Method)
    ensures LookupIn(ms, noneUsed, name) == Some(m) <==> IsFirstEnabled(ms, noneUsed, name, m)
  {
    Constants(name);
    if ms != [] {
      LookupIff(ms[1..], noneUsed, name, m);
      if Enabled(ms[0], noneUsed, name) {
        assert IsFirstEnabled(ms, noneUsed, name, ms[0]);
      } else {
        FirstOfRest(ms, noneUsed, name, m);
      }
    }
  }

  lemma FirstOfRest(ms: seq<Method>, noneUsed: bool, name: Text, m: Method)
    requires ms != [] && !Enabled(ms[0], noneUsed, name)
    ensures IsFirstEnabled(ms, noneUsed, name, m) <==> IsFirstEnabled(ms[1..], noneUsed, name, m)
  {
    var rest := ms[1..];
    if IsFirstEnabled(rest, noneUsed, name, m) {
      var i :| 0 <= i < |rest| && rest[i] == m && Enabled(m, noneUsed, name)
               && forall j :: 0 <= j < i ==> !Enabled(rest[j], noneUsed, name);
      assert ms[i + 1] == m && forall j :: 0 < j < i + 1 ==> ms[j] == rest[j - 1];
    }
    if IsFirstEnabled(ms, noneUsed, name, m) {
      var i :| 0 <= i < |ms| && ms[i] == m && Enabled(m, noneUsed, name)
               && forall j :: 0 <= j < i ==> !Enabled(ms[j], noneUsed, name);
      assert i > 0 && rest[i - 1] == m && forall j :: 0 <= j < i - 1 ==> rest[j] == ms[j + 1];
    }
  }

  // ----- Who a request is for -----

  /** A request for the user and the service of the first one, or the first one itself. */
  predicate SameIdentity(a: Auth, user: Text, service: Text) {
    a.attempt == 0 || (a.user.Some? && IsBare(user, a.user.value) && a.service == Some(service))
  }

  /** Whether the user of a request is known to be valid. */
  predicate ValidFor(a: Auth, service: Text, o: Oracle) {
    if a.attempt == 0 then o.userKnown && Spells(service, "ssh-connection") else a.valid
  }

  /** A state in which messages are handled. */
  predicate Live(cfg: Config, a: Auth) {
    Inv(cfg, a) && !a.dead && !a.success
  }

  lemma Identified(cfg: Config, a: Auth, user: Text, service: Text, o: Oracle)
    requires Live(cfg, a)
    ensures var a' := Identify(a, user, service, o);
            && (a'.dead <==> !SameIdentity(a, user, service))
            && a'.attempt == a.attempt + 1
            && (!a'.dead ==> a'.valid == ValidFor(a, service, o) && a'.user.Some? && IsBare(user, a'.user.value)
                             && a'.service == Some(service))
            && a' == a.(attempt := a'.attempt, dead := a'.dead, user := a'.user, service := a'.service,
                        valid := a'.valid)
  {
    BareIff(user, BareUser(user));
    Constants(service);
    if a.user.Some? { BareIff(user, a.user.value); }
  }

  // ----- The outcome of a request -----

  /** The method that a request runs; none once the limit on failures is reached. */
  ghost predicate Runs(cfg: Config, a: Auth, name: Text, m: Method) {
    a.failures < cfg.maxTries && IsFirstEnabled(cfg.methods, a.noneUsed, name, m)
  }

  /** A direct method runs and answers with that verdict. */
  ghost predicate RunsDirect(cfg: Config, a: Auth, name: Text) {
    exists m :: Runs(cfg, a, name, m) && m.kind == Direct
  }

  ghost predicate RunsInteractive(cfg: Config, a: Auth, name: Text) {
    exists m :: Runs(cfg, a, name, m) && m.kind == Interactive
  }

  /** The request gets its user in. */
  ghost predicate RequestAdmits(cfg: Config, a: Auth, user: Text, service: Text, name: Text, o: Oracle) {
    && a.onRequest == Installed && SameIdentity(a, user, service) && ValidFor(a, service, o)
    && RunsDirect(cfg, a, name) && o.authenticated && !o.rootDenied
  }

  /** The response gets its user in. */
  predicate ResponseAdmits(a: Auth, nresp: nat, o: Oracle) {
    && a.onInfoResponse == Installed && a.valid && o.response == 0 && !o.rootDenied
    && a.kbdint.Some? && nresp == a.kbdint.value.nreq && nresp <= 100
  }

  ghost predicate Admits(cfg: Config, a: Auth, m: Message, o: Oracle) {
    match m
    case UserauthRequest(user, service, name, _) => RequestAdmits(cfg, a, user, service, name, o)
    case InfoResponse(nresp) => ResponseAdmits(a, nresp, o)
    case _ => false
  }

  /** What is known of the state in which a request ends and of the answer to it. */
  lemma FinishIff(cfg: Config, a: Auth, authenticated: bool, isNone: bool, o: Oracle)
    requires !a.success && !a.dead
    ensures var a' := Finish(cfg, a, authenticated, isNone, o);
            && (a'.success <==> authenticated && a.valid && !o.rootDenied && !a.postponed)
            && (a'.success ==> !a'.dead && a'.successReplies == a.successReplies + 1 && a'.onRequest == Ignored
                               && a'.failures == a.failures && a'.failureReplies == a.failureReplies)
            && (authenticated && !a.valid ==> a'.dead)
  {
  }

  /** A refusal is counted unless the server caused it or it answers a first "none", and the last one disconnects. */
  predicate Refused(cfg: Config, a: Auth, a': Auth, free: bool) {
    && !a'.success && a'.successReplies == a.successReplies
    && a'.failures == a.failures + (if free then 0 else 1)
    && (a'.dead <==> a'.failures >= cfg.maxTries)
    && a'.failureReplies == a.failureReplies + (if a'.dead then 0 else 1)
  }

  lemma FinishRefuses(cfg: Config, a: Auth, authenticated: bool, isNone: bool, o: Oracle)
    requires !a.success && !a.dead && !a.postponed && (authenticated ==> a.valid && o.rootDenied) && a.attempt > 0
    ensures Refused(cfg, a, Finish(cfg, a, authenticated, isNone, o), a.serverCaused || (a.attempt == 1 && isNone))
  {
  }

  /** The state in which a request of the right identity is judged. */
  function Judged(a: Auth, user: Text, service: Text, o: Oracle): Auth {
    ChallengeStop(Identify(a, user, service, o)).(postponed := false, serverCaused := false)
  }

  lemma LookedUp(cfg: Config, a: Auth, name: Text)
    ensures Lookup(cfg, a, name).None? <==> forall m :: !IsFirstEnabled(cfg.methods, a.noneUsed, name, m)
    ensures forall m :: IsFirstEnabled(cfg.methods, a.noneUsed, name, m) <==> Lookup(cfg, a, name) == Some(m)
  {
    forall m
      ensures IsFirstEnabled(cfg.methods, a.noneUsed, name, m) <==> Lookup(cfg, a, name) == Some(m)
    {
      LookupIff(cfg.methods, a.noneUsed, name, m);
    }
    if Lookup(cfg, a, name).Some? { assert IsFirstEnabled(cfg.methods, a.noneUsed, name, Lookup(cfg, a, name).value); }
  }

  /** Some requested name is the beginning of the name of a device. */
  ghost predicate SomeMatch(names: seq<Text>, tokens: seq<Text>) {
    exists k, i :: 0 <= k < |tokens| && 0 <= i < |names| && tokens[k] <= names[i]
  }

  lemma SearchFinds(names: seq<Text>, devices: Option<Text>)
    ensures Search(names, devices).1.Some? <==> SomeMatch(names, Requested(devices))
  {
    var tokens := Requested(devices);
    SearchIsFirstHit(names, devices);
    HitIff(names, tokens);
  }

  lemma HitIff(names: seq<Text>, tokens: seq<Text>)
    ensures FirstHit(names, tokens) < |tokens| <==> SomeMatch(names, tokens)
  {
    var k := FirstHit(names, tokens);
    if k < |tokens| {
      assert Matches(tokens[k], names[LastMatch(names, tokens[k]).value]);
    }
    if SomeMatch(names, tokens) {
      var j, i :| 0 <= j < |tokens| && 0 <= i < |names| && tokens[j] <= names[i];
      assert Matches(tokens[j], names[i]);
    }
  }

  /** Whether a dialogue begins: a device matches a requested name, has a context and a question. */
  ghost predicate Begins(cfg: Config, devs: Text, o: Oracle) {
    o.initOk && o.queryOk && SomeMatch(cfg.devices, if devs == [] then Names(Join(cfg.devices)) else Names(devs))
  }

  lemma ChallengeIff(cfg: Config, a: Auth, devs: Text, o: Oracle)
    requires a.kbdint.None? && a.user.Some? && !a.postponed
    ensures var a' := Challenge(cfg, a, devs, o);
            && SameButDialogue(a, a') && (a'.postponed <==> Begins(cfg, devs, o))
            && (a'.onInfoResponse == if a'.postponed then Installed else NotSet)
  {
    SearchFinds(cfg.devices, NewDialogue(cfg, devs).devices);
  }

  /** Nothing is answered yet and nothing is counted. */
  predicate Waits(a: Auth, a': Auth) {
    && a'.postponed && !a'.dead && !a'.success && a'.failures == a.failures
    && a'.successReplies == a.successReplies && a'.failureReplies == a.failureReplies
  }

  predicate Succeeds(a: Auth, a': Auth) {
    && a'.success && !a'.dead && a'.onRequest == Ignored && a'.successReplies == a.successReplies + 1
    && a'.failures == a.failures && a'.failureReplies == a.failureReplies
  }

  /** The connection ends without a reply. */
  predicate CutOff(a: Auth, a': Auth) {
    && a'.dead && !a'.success
    && a'.successReplies == a.successReplies && a'.failureReplies == a.failureReplies
  }

  /** What becomes of a request for the right identity, by the method it runs. */
  ghost predicate RequestOutcome(cfg: Config, a: Auth, a': Auth, service: Text, name: Text, devs: Text, o: Oracle) {
    if RunsDirect(cfg, a, name) then
      if o.authenticated && !ValidFor(a, service, o) then CutOff(a, a')
      else if o.authenticated && !o.rootDenied then Succeeds(a, a')
      else if o.postpones && !o.authenticated then Waits(a, a')
      else Refused(cfg, a, a', o.serverCaused || (a.attempt == 0 && Spells(name, "none")))
    else if RunsInteractive(cfg, a, name) && Begins(cfg, devs, o) then Waits(a, a')
    else Refused(cfg, a, a', a.attempt == 0 && Spells(name, "none"))
  }

  /** What a judged request still has of the state before it. */
  predicate Judging(cfg: Config, a: Auth, a2: Auth, service: Text, o: Oracle) {
    && a2.attempt == a.attempt + 1 && a2.valid == ValidFor(a, service, o) && a2.user.Some? && a2.kbdint.None?
    && !a2.postponed && !a2.serverCaused && !a2.dead && !a2.success && a2.noneUsed == a.noneUsed
    && a2.failures == a.failures && a2.successReplies == a.successReplies && a2.failureReplies == a.failureReplies
  }

  lemma FinishOutcome(cfg: Config, a: Auth, authenticated: bool, isNone: bool, o: Oracle)
    requires !a.success && !a.dead && a.attempt > 0 && (a.postponed ==> !authenticated)
    ensures var a' := Finish(cfg, a, authenticated, isNone, o);
            if authenticated && !a.valid then CutOff(a, a')
            else if authenticated && !o.rootDenied then Succeeds(a, a')
            else if a.postponed then Waits(a, a')
            else Refused(cfg, a, a', a.serverCaused || (a.attempt == 1 && isNone))
    ensures Finish(cfg, a, authenticated, isNone, o).noneUsed == a.noneUsed
  {
    FinishIff(cfg, a, authenticated, isNone, o);
    if !a.postponed && (authenticated ==> a.valid && o.rootDenied) {
      FinishRefuses(cfg, a, authenticated, isNone, o);
    }
  }

  lemma DirectOutcome(cfg: Config, a: Auth, a2: Auth, m: Method, service: Text, name: Text, devs: Text, o: Oracle)
    requires Judging(cfg, a, a2, service, o) && Lookup(cfg, a2, name) == Some(m) && m.kind == Direct
    requires a2.failures < cfg.maxTries
    ensures var (a3, ok) := Try(cfg, a2, m, devs, o);
            RequestOutcome(cfg, a, Finish(cfg, a3, ok, name == NONE_METHOD, o), service, name, devs, o)
    ensures RunsDirect(cfg, a, name)
  {
    LookedUp(cfg, a2, name);
    assert Runs(cfg, a, name, m);
    Constants(name);
    var (a3, ok) := Try(cfg, a2, m, devs, o);
    FinishOutcome(cfg, a3, ok, name == NONE_METHOD, o);
  }

  /** A name has one method. */
  lemma OneMethod(cfg: Config, a: Auth, name: Text, m: Method)
    requires Runs(cfg, a, name, m)
    ensures RunsDirect(cfg, a, name) <==> m.kind == Direct
    ensures RunsInteractive(cfg, a, name) <==> m.kind == Interactive
  {
    LookedUp(cfg, a, name);
  }

  lemma InteractiveOutcome(cfg: Config, a: Auth, a2: Auth, m: Method, service: Text, name: Text, devs: Text, o: Oracle)
    requires Judging(cfg, a, a2, service, o) && Lookup(cfg, a2, name) == Some(m) && m.kind == Interactive
    requires a2.failures < cfg.maxTries
    ensures var (a3, ok) := Try(cfg, a2, m, devs, o);
            RequestOutcome(cfg, a, Finish(cfg, a3, ok, name == NONE_METHOD, o), service, name, devs, o)
  {
    LookedUp(cfg, a2, name);
    assert Runs(cfg, a, name, m);
    OneMethod(cfg, a, name, m);
    Constants(name);
    var a3 := Challenge(cfg, a2, devs, o);
    ChallengeIff(cfg, a2, devs, o);
    FinishOutcome(cfg, a3, false, name == NONE_METHOD, o);
  }

  lemma NothingRuns(cfg: Config, a: Auth, a2: Auth, service: Text, name: Text, devs: Text, o: Oracle)
    requires Judging(cfg, a, a2, service, o) && (Lookup(cfg, a2, name).None? || a2.failures >= cfg.maxTries)
    ensures RequestOutcome(cfg, a, Finish(cfg, a2, false, name == NONE_METHOD, o), service, name, devs, o)
  {
    LookedUp(cfg, a2, name);
    Constants(name);
    FinishOutcome(cfg, a2, false, name == NONE_METHOD, o);
    assert !RunsDirect(cfg, a, name) && !RunsInteractive(cfg, a, name);
  }

  /** The method of the request, if one runs. */
  function Attempt(cfg: Config, a2: Auth, name: Text, devs: Text, o: Oracle): (Auth, bool) {
    var found := Lookup(cfg, a2, name);
    if found.Some? && a2.failures < cfg.maxTries then Try(cfg, a2, found.value, devs, o) else (a2, false)
  }

  /** The second half of `input_userauth_request`, behind the check of the identity. */
  function Judge(cfg: Config, a2: Auth, name: Text, devs: Text, o: Oracle): Auth {
    var (a3, ok) := Attempt(cfg, a2, name, devs, o);
    Finish(cfg, a3, ok, name == NONE_METHOD, o)
  }

  lemma JudgeOutcome(cfg: Config, a: Auth, a2: Auth, service: Text, name: Text, devs: Text, o: Oracle)
    requires Judging(cfg, a, a2, service, o)
    ensures RequestOutcome(cfg, a, Judge(cfg, a2, name, devs, o), service, name, devs, o)
  {
    var found := Lookup(cfg, a2, name);
    if found.None? || a2.failures >= cfg.maxTries {
      NothingRuns(cfg, a, a2, service, name, devs, o);
    } else if found.value.kind == Direct {
      DirectOutcome(cfg, a, a2, found.value, service, name, devs, o);
    } else {
      InteractiveOutcome(cfg, a, a2, found.value, service, name, devs, o);
    }
  }

  lemma RequestIsJudge(cfg: Config, a: Auth, user: Text, service: Text, name: Text, devs: Text, o: Oracle)
    requires Live(cfg, a) && a.onRequest == Installed
    ensures Step(cfg, a, UserauthRequest(user, service, name, devs), o)
         == if Identify(a, user, service, o).dead then Identify(a, user, service, o)
            else Judge(cfg, Judged(a, user, service, o), name, devs, o)
  {
  }

  /**
   * The outcome of every request in every live state: one for another user or service than the first is cut off; the
   * others succeed, wait, are cut off or are refused and counted as the method that runs decides.
   */
  lemma RequestIsJudged(cfg: Config, a: Auth, user: Text, service: Text, name: Text, devs: Text, o: Oracle)
    requires Live(cfg, a) && a.onRequest == Installed
    ensures var a' := Step(cfg, a, UserauthRequest(user, service, name, devs), o);
            if SameIdentity(a, user, service) then RequestOutcome(cfg, a, a', service, name, devs, o) else CutOff(a, a')
  {
    Identified(cfg, a, user, service, o);
    RequestIsJudge(cfg, a, user, service, name, devs, o);
    if SameIdentity(a, user, service) {
      JudgeOutcome(cfg, a, Judged(a, user, service, o), service, name, devs, o);
    }
  }

  // ----- The outcome of a response -----

  /** Another device takes over: one matches a name that is left, has a context and a question. */
  ghost predicate GoesOn(cfg: Config, k: Kbdint, o: Oracle) {
    o.initOk && o.queryOk && SomeMatch(cfg.devices, if k.devices.Some? then Names(k.devices.value) else [])
  }

  /** The device judges the response: it lets the user in, asks again, or leaves him to the next device. */
  ghost predicate ResponseOutcome(cfg: Config, a: Auth, a': Auth, k: Kbdint, nresp: nat, o: Oracle) {
    if nresp != k.nreq || nresp > 100 then CutOff(a, a')
    else if o.response == 0 && a.valid then if o.rootDenied then Refused(cfg, a, a', false) else Succeeds(a, a')
    else if o.response == 1 && o.requeryOk then
      Waits(a, a') && a'.kbdint == Some(k.(nreq := o.prompts)) && a'.onInfoResponse == Installed
    else if GoesOn(cfg, k, o) then Waits(a, a') && a'.onInfoResponse == Installed
    else Refused(cfg, a, a', false) && a'.onInfoResponse == NotSet
  }

  lemma NextIff(cfg: Config, a: Auth, k: Kbdint, o: Oracle)
    requires a.kbdint == Some(k) && !a.postponed
    ensures var a' := ChallengeStart(cfg, a, o);
            && SameButDialogue(a, a') && (a'.postponed <==> GoesOn(cfg, k, o))
            && (a'.onInfoResponse == if a'.postponed then Installed else NotSet)
  {
    SearchFinds(cfg.devices, k.devices);
  }

  lemma FinishKeepsHandler(cfg: Config, a: Auth, isNone: bool, o: Oracle)
    ensures var a' := Finish(cfg, a, false, isNone, o);
            a'.onInfoResponse == a.onInfoResponse && a'.kbdint == a.kbdint
  {
  }

  /** A dialogue is not under way while the server is to blame for a failure. */
  predicate Blameless(a: Auth) { a.onInfoResponse == Installed ==> !a.serverCaused }

  /** A response in the right number, once the device has judged it. */
  lemma ContinueOutcome(cfg: Config, a: Auth, k: Kbdint, ok: bool, o: Oracle)
    requires a.kbdint == Some(k) && a.onInfoResponse == Installed && (ok ==> o.response == 0)
    ensures var a1 := Continue(cfg, a, ok, o);
            var again := o.response == 1 && o.requeryOk;
            && SameButDialogue(a, a1)
            && (a1.postponed <==> again || (!ok && GoesOn(cfg, k, o)))
            && (a1.onInfoResponse == if a1.postponed then Installed else NotSet)
            && (again ==> a1.kbdint == Some(k.(nreq := o.prompts)))
  {
    if !(o.response == 1 && o.requeryOk) && !ok { NextIff(cfg, a.(postponed := false), k, o); }
  }

  /** The outcome of every response in every live state that waits for one. */
  lemma ResponseIsJudged(cfg: Config, a: Auth, nresp: nat, o: Oracle)
    requires Live(cfg, a) && a.onInfoResponse == Installed && Blameless(a)
    ensures ResponseOutcome(cfg, a, Step(cfg, a, InfoResponse(nresp), o), a.kbdint.value, nresp, o)
  {
    var k := a.kbdint.value;
    if nresp == k.nreq && nresp <= 100 {
      var ok := o.response == 0 && a.valid;
      var a1 := Continue(cfg, a, ok, o);
      ContinueOutcome(cfg, a, k, ok, o);
      FinishOutcome(cfg, a1, ok, false, o);
      FinishKeepsHandler(cfg, a1, false, o);
    }
  }

  /** The only service is "ssh-userauth"; a request for another one is cut off. */
  lemma ServiceIsJudged(cfg: Config, a: Auth, service: Text, o: Oracle)
    requires Live(cfg, a)
    ensures var a' := Step(cfg, a, ServiceRequest(service), o);
            if Spells(service, "ssh-userauth") then a' == a.(onRequest := Installed) else CutOff(a, a')
  {
    Constants(service);
  }

  // ----- Main results, over every run of the server -----

  /** Nothing but a direct method puts the blame on the server, and none runs while a dialogue is under way. */
  lemma StepKeepsBlame(cfg: Config, a: Auth, m: Message, o: Oracle)
    requires Inv(cfg, a) && Blameless(a)
    ensures Blameless(Step(cfg, a, m, o))
  {
    match m
    case UserauthRequest(user, service, name, devs) =>
      if Live(cfg, a) && a.onRequest == Installed {
        RequestIsJudge(cfg, a, user, service, name, devs, o);
        JudgeKeepsBlame(cfg, Judged(a, user, service, o), name, devs, o);
      }
    case InfoResponse(nresp) =>
      if Live(cfg, a) && a.onInfoResponse == Installed {
        var ok := o.response == 0 && a.valid;
        ContinueOk(cfg, a, ok, o);
        FinishKeepsBlame(cfg, Continue(cfg, a, ok, o), ok, false, o);
      }
    case _ =>
  }

  lemma FinishKeepsBlame(cfg: Config, a: Auth, ok: bool, isNone: bool, o: Oracle)
    ensures var a' := Finish(cfg, a, ok, isNone, o);
            a'.serverCaused == a.serverCaused && a'.onInfoResponse == a.onInfoResponse
  {
  }

  lemma JudgeKeepsBlame(cfg: Config, a2: Auth, name: Text, devs: Text, o: Oracle)
    requires a2.onInfoResponse == NotSet && !a2.serverCaused
    ensures Blameless(Judge(cfg, a2, name, devs, o))
  {
    var (a3, ok) := Attempt(cfg, a2, name, devs, o);
    AttemptKeeps(cfg, a2, name, devs, o);
    FinishKeepsBlame(cfg, a3, ok, name == NONE_METHOD, o);
  }

  lemma StartKeeps(cfg: Config, a: Auth, o: Oracle)
    requires a.kbdint.Some?
    ensures SameButDialogue(a, ChallengeStart(cfg, a, o))
  {
  }

  lemma TryKeeps(cfg: Config, a: Auth, m: Method, devs: Text, o: Oracle)
    requires a.onInfoResponse == NotSet && !a.serverCaused
    ensures var a' := Try(cfg, a, m, devs, o).0;
            && Blameless(a') && a'.user == a.user && a'.service == a.service && a'.valid == a.valid
            && a'.noneUsed == (a.noneUsed || (m.kind == Direct && m.name == NONE_METHOD)) && a'.attempt == a.attempt
  {
    if m.kind.Interactive? && a.user.Some? {
      StartKeeps(cfg, if a.kbdint.None? then a.(kbdint := Some(NewDialogue(cfg, devs))) else a, o);
    }
  }

  lemma AttemptKeeps(cfg: Config, a2: Auth, name: Text, devs: Text, o: Oracle)
    requires a2.onInfoResponse == NotSet && !a2.serverCaused
    ensures var a3 := Attempt(cfg, a2, name, devs, o).0;
            Blameless(a3) && a3.user == a2.user && a3.service == a2.service && a3.valid == a2.valid
  {
    var found := Lookup(cfg, a2, name);
    if found.Some? { TryKeeps(cfg, a2, found.value, devs, o); }
  }

  lemma {:induction false} AlwaysBlameless(cfg: Config, ms: seq<(Message, Oracle)>)
    ensures Inv(cfg, Run(cfg, Fresh, ms)) && Blameless(Run(cfg, Fresh, ms))
    decreases |ms|
  {
    Always(cfg, ms);
    if ms != [] {
      AlwaysBlameless(cfg, ms[..|ms| - 1]);
      StepKeepsBlame(cfg, Run(cfg, Fresh, ms[..|ms| - 1]), ms[|ms| - 1].0, ms[|ms| - 1].1);
    }
  }

  /** A message gets its user in if and only if it admits him, and then exactly one success reply is sent. */
  lemma StepSucceedsIff(cfg: Config, a: Auth, m: Message, o: Oracle)
    requires Live(cfg, a) && Blameless(a)
    ensures var a' := Step(cfg, a, m, o);
            && (a'.success <==> Admits(cfg, a, m, o))
            && (a'.success ==> Succeeds(a, a'))
  {
    match m
    case UserauthRequest(user, service, name, devs) =>
      if a.onRequest == Installed { RequestIsJudged(cfg, a, user, service, name, devs, o); }
    case InfoResponse(nresp) =>
      if a.onInfoResponse == Installed { ResponseIsJudged(cfg, a, nresp, o); }
    case ServiceRequest(service) => ServiceIsJudged(cfg, a, service, o);
    case Other =>
  }

  /** Message `i` found the connection live and admitted its user. */
  ghost predicate AdmittedAt(cfg: Config, ms: seq<(Message, Oracle)>, i: nat)
    requires i < |ms|
  {
    var a := Run(cfg, Fresh, ms[..i]);
    !a.dead && !a.success && Admits(cfg, a, ms[i].0, ms[i].1)
  }

  /** A connection that ended stays as it is. */
  lemma {:induction false} EndedStays(cfg: Config, first: seq<(Message, Oracle)>, later: seq<(Message, Oracle)>)
    requires Run(cfg, Fresh, first).dead || Run(cfg, Fresh, first).success
    ensures Run(cfg, Fresh, first + later) == Run(cfg, Fresh, first)
    decreases |later|
  {
    if later == [] {
      assert first + later == first;
    } else {
      var all, n := first + later, |first + later|;
      assert all[..n - 1] == first + later[..|later| - 1];
      EndedStays(cfg, first, later[..|later| - 1]);
    }
  }

  lemma {:induction false} SomeMessageAdmitted(cfg: Config, ms: seq<(Message, Oracle)>) returns (i: nat)
    requires Run(cfg, Fresh, ms).success
    ensures i < |ms| && AdmittedAt(cfg, ms, i)
    decreases |ms|
  {
    var last := |ms| - 1;
    var front := ms[..last];
    if Run(cfg, Fresh, front).success {
      i := SomeMessageAdmitted(cfg, front);
      assert front[..i] == ms[..i] && front[i] == ms[i];
    } else {
      AlwaysBlameless(cfg, front);
      StepSucceedsIff(cfg, Run(cfg, Fresh, front), ms[last].0, ms[last].1);
      i := last;
    }
  }

  lemma AdmissionEnds(cfg: Config, ms: seq<(Message, Oracle)>, i: nat)
    requires i < |ms| && AdmittedAt(cfg, ms, i)
    ensures Run(cfg, Fresh, ms).success
  {
    var first := ms[..i + 1];
    assert first[..i] == ms[..i] && first[i] == ms[i] && ms == first + ms[i + 1..];
    AlwaysBlameless(cfg, ms[..i]);
    StepSucceedsIff(cfg, Run(cfg, Fresh, ms[..i]), ms[i].0, ms[i].1);
    EndedStays(cfg, first, ms[i + 1..]);
  }

  /**
   * A run ends in success if and only if one of its messages found the connection live and admitted a valid user of
   * the connection service; then one success reply was sent, and otherwise none.
   */
  lemma SuccessIff(cfg: Config, ms: seq<(Message, Oracle)>)
    ensures var a := Run(cfg, Fresh, ms);
            && (a.success <==> exists i :: 0 <= i < |ms| && AdmittedAt(cfg, ms, i))
            && a.successReplies == (if a.success then 1 else 0)
            && (a.success ==> a.valid && a.service.Some? && Spells(a.service.value, "ssh-connection"))
  {
    var a := Run(cfg, Fresh, ms);
    Always(cfg, ms);
    if a.success {
      var i := SomeMessageAdmitted(cfg, ms);
      Constants(a.service.value);
    }
    if exists i :: 0 <= i < |ms| && AdmittedAt(cfg, ms, i) {
      var i :| 0 <= i < |ms| && AdmittedAt(cfg, ms, i);
      AdmissionEnds(cfg, ms, i);
    }
  }

  /** A request for another user or another service than the first one ends the connection for good, without success. */
  lemma ChangedIdentityKills(cfg: Config, ms: seq<(Message, Oracle)>, user: Text, service: Text, name: Text, devs: Text,
                             o: Oracle, later: seq<(Message, Oracle)>)
    requires var a := Run(cfg, Fresh, ms);
             !a.dead && !a.success && a.onRequest == Installed && !SameIdentity(a, user, service)
    ensures var a' := Run(cfg, Fresh, ms + [(UserauthRequest(user, service, name, devs), o)] + later);
            a'.dead && !a'.success && a'.failureReplies == Run(cfg, Fresh, ms).failureReplies
  {
    var next := ms + [(UserauthRequest(user, service, name, devs), o)];
    assert next[..|next| - 1] == ms;
    Always(cfg, ms);
    RequestIsJudged(cfg, Run(cfg, Fresh, ms), user, service, name, devs, o);
    EndedStays(cfg, next, later);
  }

  /** Message `i` is the first request that was handled, and it fixed the identity of `a`. */
  ghost predicate IdentifiedAt(cfg: Config, ms: seq<(Message, Oracle)>, a: Auth, i: nat)
    requires i < |ms|
  {
    var m, o := ms[i].0, ms[i].1;
    && Run(cfg, Fresh, ms[..i]).attempt == 0
    && m.UserauthRequest? && a.user.Some? && IsBare(m.user, a.user.value) && a.service == Some(m.service)
    && (a.valid <==> o.userKnown && Spells(m.service, "ssh-connection"))
  }

  /** The first request that was handled decides for whom the connection is, and whether that user is valid. */
  lemma {:induction false} FirstRequestIdentifies(cfg: Config, ms: seq<(Message, Oracle)>) returns (i: nat)
    requires Run(cfg, Fresh, ms).attempt > 0
    ensures i < |ms| && IdentifiedAt(cfg, ms, Run(cfg, Fresh, ms), i)
    decreases |ms|
  {
    var last := |ms| - 1;
    var front := ms[..last];
    var a := Run(cfg, Fresh, front);
    Always(cfg, front);
    if a.attempt > 0 {
      i := FirstRequestIdentifies(cfg, front);
      StepOk(cfg, a, ms[last].0, ms[last].1);
      assert front[..i] == ms[..i] && front[i] == ms[i];
    } else {
      FirstStep(cfg, a, ms[last].0, ms[last].1);
      i := last;
    }
  }

  /** The only message that counts as an attempt is a request that is handled. */
  lemma FirstStep(cfg: Config, a: Auth, m: Message, o: Oracle)
    requires Inv(cfg, a) && a.attempt == 0 && Step(cfg, a, m, o).attempt > 0
    ensures var a' := Step(cfg, a, m, o);
            && m.UserauthRequest? && a'.user.Some? && IsBare(m.user, a'.user.value) && a'.service == Some(m.service)
            && (a'.valid <==> o.userKnown && Spells(m.service, "ssh-connection"))
  {
    if m.UserauthRequest? && Live(cfg, a) && a.onRequest == Installed {
      Identified(cfg, a, m.user, m.service, o);
      var a2 := Judged(a, m.user, m.service, o);
      RequestIsJudge(cfg, a, m.user, m.service, m.method_, m.devices, o);
      JudgeKeepsIdentity(cfg, a2, m.method_, m.devices, o);
    }
  }

  lemma JudgeKeepsIdentity(cfg: Config, a2: Auth, name: Text, devs: Text, o: Oracle)
    requires a2.onInfoResponse == NotSet && !a2.serverCaused
    ensures var a' := Judge(cfg, a2, name, devs, o);
            a'.user == a2.user && a'.service == a2.service && a'.valid == a2.valid
  {
    var (a3, ok) := Attempt(cfg, a2, name, devs, o);
    AttemptKeeps(cfg, a2, name, devs, o);
    FinishKeepsIdentity(cfg, a3, ok, name == NONE_METHOD, o);
  }

  lemma FinishKeepsIdentity(cfg: Config, a: Auth, ok: bool, isNone: bool, o: Oracle)
    ensures var a' := Finish(cfg, a, ok, isNone, o);
            a'.user == a.user && a'.service == a.service && a'.valid == a.valid
  {
  }

  /** A request counts as an attempt, and "none" is used up by the one request that runs it. */
  lemma NoneIsUsedUp(cfg: Config, a: Auth, user: Text, service: Text, name: Text, devs: Text, o: Oracle)
    requires Live(cfg, a) && a.onRequest == Installed && SameIdentity(a, user, service)
    ensures var a' := Step(cfg, a, UserauthRequest(user, service, name, devs), o);
            && a'.attempt == a.attempt + 1
            && (a'.noneUsed <==> a.noneUsed || (Spells(name, "none") && RunsDirect(cfg, a, name)))
  {
    Identified(cfg, a, user, service, o);
    RequestIsJudge(cfg, a, user, service, name, devs, o);
    AttemptUses(cfg, a, Judged(a, user, service, o), name, devs, o);
  }

  lemma AttemptUses(cfg: Config, a: Auth, a2: Auth, name: Text, devs: Text, o: Oracle)
    requires a2.onInfoResponse == NotSet && !a2.serverCaused && a2.failures == a.failures && a2.noneUsed == a.noneUsed
    ensures var a' := Judge(cfg, a2, name, devs, o);
            && a'.attempt == a2.attempt
            && (a'.noneUsed <==> a.noneUsed || (Spells(name, "none") && RunsDirect(cfg, a, name)))
  {
    var found := Lookup(cfg, a2, name);
    LookedUp(cfg, a2, name);
    Constants(name);
    if found.Some? {
      TryKeeps(cfg, a2, found.value, devs, o);
      assert Runs(cfg, a, name, found.value) <==> a.failures < cfg.maxTries;
    }
    var (a3, ok) := Attempt(cfg, a2, name, devs, o);
    FinishKeepsUse(cfg, a3, ok, name == NONE_METHOD, o);
  }

  lemma FinishKeepsUse(cfg: Config, a: Auth, ok: bool, isNone: bool, o: Oracle)
    ensures var a' := Finish(cfg, a, ok, isNone, o); a'.noneUsed == a.noneUsed && a'.attempt == a.attempt
  {
  }

  /** An empty list of devices asks for all of them, in order. */
  lemma AllDevicesAreAsked(cfg: Config)
    requires Listable(cfg.devices)
    ensures Requested(NewDialogue(cfg, []).devices) == cfg.devices
  {
    NamesOfJoin(cfg.devices);
  }
}
