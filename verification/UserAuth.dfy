/** The server side of user authentication: auth2.c with the keyboard-interactive sub-dialogue of auth2-chall.c. */
module UserAuth {
  import opened Arith
  import opened Bytes
  import opened NameLists
  import opened Options

  type Text = seq<byte>

  const SLASH: byte := 0x2f
  const COLON: byte := 0x3a

  const SSH_USERAUTH: Text := [0x73, 0x73, 0x68, 0x2d, 0x75, 0x73, 0x65, 0x72, 0x61, 0x75, 0x74, 0x68]
  const SSH_CONNECTION: Text := [0x73, 0x73, 0x68, 0x2d, 0x63, 0x6f, 0x6e, 0x6e, 0x65, 0x63, 0x74, 0x69, 0x6f, 0x6e]
  const NONE_METHOD: Text := [0x6e, 0x6f, 0x6e, 0x65]

  /** An entry of the dispatch table. */
  datatype Handler = ProtocolError | NotSet | Installed | Ignored

  /** `KbdintAuthctxt`: devices still to try, the current device and whether it has a context. */
  datatype Kbdint = Kbdint(devices: Option<Text>, device: Option<nat>, ctxt: bool, nreq: nat)

  /** How an authentication method is run. */
  datatype MethodKind = Direct | Interactive

  datatype Method = Method(name: Text, kind: MethodKind, enabled: bool)

  /** Server configuration: the method table in order, the keyboard-interactive devices, and the limit on failures. */
  datatype Config = Config(methods: seq<Method>, devices: seq<Text>, maxTries: nat)

  /** What the surroundings answer while one message is handled. */
  datatype Oracle = Oracle(
    userKnown: bool,            // getpwnamallow
    authenticated: bool,        // result of a direct method
    postpones: bool,            // a direct method sent an intermediate reply
    serverCaused: bool,         // a direct method blamed the server
    rootDenied: bool,           // root login is not allowed with this method
    initOk: bool,               // init_ctx of a device
    queryOk: bool,              // query of a device
    requeryOk: bool,            // a further query of the same device
    prompts: nat,               // number of prompts of the query
    response: int)              // respond: 0 success, 1 further interaction, else failure

  datatype Auth = Auth(
    attempt: nat, failures: nat, success: bool, postponed: bool, valid: bool, serverCaused: bool,
    user: Option<Text>, service: Option<Text>, kbdint: Option<Kbdint>,
    onRequest: Handler, onInfoResponse: Handler, noneUsed: bool,
    // what was done so far
    successReplies: nat, failureReplies: nat, serverCausedReplies: nat, freeReplies: nat,
    dead: bool, noContext: bool)

  datatype Message =
    | ServiceRequest(service: Text)
    | UserauthRequest(user: Text, service: Text, method_: Text, devices: Text)
    | InfoResponse(nresp: nat)
    | Other

  // ----- auth2-chall.c -----

  /** `strncmp(token, name, |token|) == 0`: the token is a beginning of the name. */
  predicate Matches(token: Text, name: Text) { token <= name }

  /** The last device of the table that matches, as the scan without a break leaves it. */
  function LastMatch(names: seq<Text>, token: Text): (r: Option<nat>)
    ensures r.None? <==> forall i :: 0 <= i < |names| ==> !Matches(token, names[i])
    ensures r.Some? ==> r.value < |names| && Matches(token, names[r.value])
    ensures r.Some? ==> forall i :: r.value < i < |names| ==> !Matches(token, names[i])
  {
    if names == [] then None
    else if Matches(token, names[|names| - 1]) then Some(|names| - 1)
    else LastMatch(names[..|names| - 1], token)
  }

  /** What follows the first name in the list, if anything. */
  function AfterFirst(s: Text): (r: Option<Text>)
    ensures r.Some? ==> |r.value| < |s|
  {
    var k := CommaAt(s);
    if k < |s| then Some(s[k + 1..]) else None
  }

  /** The search loop of `kbdint_next_device`: which device comes next, and which names remain. */
  function Search(names: seq<Text>, devices: Option<Text>): (r: (Option<Text>, Option<nat>))
    ensures r.1.Some? ==> r.1.value < |names|
    decreases if devices.Some? then |devices.value| + 1 else 0
  {
    if devices.None? || CommaAt(devices.value) == 0 then (devices, None)
    else
      var found := LastMatch(names, devices.value[..CommaAt(devices.value)]);
      var rest := AfterFirst(devices.value);
      if found.Some? || rest.None? then (rest, found) else Search(names, rest)
  }

  /** The names that a list still asks for. */
  function Requested(devices: Option<Text>): seq<Text> {
    if devices.Some? then Names(devices.value) else []
  }

  /** The first requested name that any device matches, or their number if there is none. */
  function FirstHit(names: seq<Text>, tokens: seq<Text>): (k: nat)
    ensures k <= |tokens| && (k < |tokens| ==> LastMatch(names, tokens[k]).Some?)
    ensures forall j :: 0 <= j < k ==> LastMatch(names, tokens[j]).None?
  {
    if tokens == [] || LastMatch(names, tokens[0]).Some? then 0
    else
      var k := 1 + FirstHit(names, tokens[1..]);
      assert forall j :: 0 < j < k ==> tokens[j] == tokens[1..][j - 1];
      k
  }

  /**
   * The search takes the last device that matches the first requested name with a match, and leaves the names behind
   * it.
   */
  lemma {:induction false} SearchIsFirstHit(names: seq<Text>, devices: Option<Text>)
    ensures var tokens := Requested(devices);
            var k := FirstHit(names, tokens);
            && Search(names, devices).1 == (if k < |tokens| then LastMatch(names, tokens[k]) else None)
            && Requested(Search(names, devices).0) == (if k < |tokens| then tokens[k + 1..] else [])
    decreases if devices.Some? then |devices.value| + 1 else 0
  {
    var tokens := Requested(devices);
    if tokens != [] {
      var rest := AfterFirst(devices.value);
      assert tokens[0] == devices.value[..CommaAt(devices.value)] && tokens[1..] == Requested(rest);
      if LastMatch(names, tokens[0]).None? && rest.Some? {
        SearchIsFirstHit(names, rest);
      }
    }
  }

  /** `t` is the name of a device behind which no name begins with `t`. */
  ghost predicate NamedLast(names: seq<Text>, t: Text) {
    exists i :: 0 <= i < |names| && names[i] == t && forall j :: i < j < |names| ==> !Matches(t, names[j])
  }

  /** The scan picks the device of exactly that name if and only if there is one and no later name begins with it. */
  lemma ExactDeviceIff(names: seq<Text>, t: Text)
    ensures var r := LastMatch(names, t); r.Some? && names[r.value] == t <==> NamedLast(names, t)
  {
    var r := LastMatch(names, t);
    if NamedLast(names, t) {
      var i :| 0 <= i < |names| && names[i] == t && forall j :: i < j < |names| ==> !Matches(t, names[j]);
      assert Matches(t, names[i]);
      assert r.value == i;
    }
  }

  /**
   * The next device has exactly the name it is asked for under if and only if that name is a device's and not shadowed.
   */
  lemma SearchIsExactIff(names: seq<Text>, devices: Option<Text>)
    ensures var tokens, found := Requested(devices), Search(names, devices).1;
            var k := FirstHit(names, tokens);
            k < |tokens| ==> (found.Some? && names[found.value] == tokens[k] <==> NamedLast(names, tokens[k]))
  {
    var tokens := Requested(devices);
    var k := FirstHit(names, tokens);
    SearchIsFirstHit(names, devices);
    if k < |tokens| { ExactDeviceIff(names, tokens[k]); }
  }

  /** Asked for "p", the scan picks "pam"; asked for "pam", it prefers a later "pamx". */
  lemma AbbreviationsMatch()
    ensures var p, pam, pamx := [0x70], [0x70, 0x61, 0x6d], [0x70, 0x61, 0x6d, 0x78];
            LastMatch([pam], p) == Some(0) && LastMatch([pam, pamx], pam) == Some(1)
  {
    var p, pam, pamx := [0x70], [0x70, 0x61, 0x6d], [0x70, 0x61, 0x6d, 0x78];
    assert Matches(p, [pam][0]) && Matches(pam, [pam, pamx][1]);
  }

  /** `kbdint_next_device` */
  function NextDevice(cfg: Config, k: Kbdint): Kbdint {
    var k0 := if k.device.Some? then k.(ctxt := false, device := None) else k;
    var (rest, found) := Search(cfg.devices, k0.devices);
    k0.(devices := rest, device := found)
  }

  /** `auth2_challenge_stop` */
  function ChallengeStop(a: Auth): Auth {
    a.(onInfoResponse := NotSet, kbdint := None)
  }

  /** `auth2_challenge_start` */
  function ChallengeStart(cfg: Config, a: Auth, o: Oracle): Auth
    requires a.kbdint.Some?
  {
    var k := NextDevice(cfg, a.kbdint.value);
    if k.device.None? || !o.initOk || !o.queryOk then ChallengeStop(a)
    else a.(kbdint := Some(k.(ctxt := true, nreq := o.prompts)), onInfoResponse := Installed, postponed := true)
  }

  /** `kbdint_alloc` */
  function NewDialogue(cfg: Config, devs: Text): Kbdint {
    Kbdint(Some(if devs == [] then Join(cfg.devices) else devs), None, false, 0)
  }

  /** `auth2_challenge` */
  function Challenge(cfg: Config, a: Auth, devs: Text, o: Oracle): Auth {
    if a.user.None? then a
    else
      var a1 := if a.kbdint.None?
                then a.(kbdint := Some(NewDialogue(cfg, devs)))
                else a;
      ChallengeStart(cfg, a1, o)
  }

  // ----- auth2.c -----

  function Die(a: Auth): Auth { a.(dead := true) }

  /** `userauth_finish` */
  function Finish(cfg: Config, a: Auth, authenticated: bool, isNone: bool, o: Oracle): Auth {
    if !a.valid && authenticated then Die(a)
    else
      var ok := authenticated && !o.rootDenied;
      if a.postponed then a
      else if ok then a.(onRequest := Ignored, success := true, successReplies := a.successReplies + 1)
      else
        var penalty := !a.serverCaused && (a.attempt > 1 || !isNone);
        var failures := if penalty then a.failures + 1 else a.failures;
        if failures >= cfg.maxTries then Die(a.(failures := failures))
        else a.(failures := failures, failureReplies := a.failureReplies + 1,
                serverCausedReplies := a.serverCausedReplies + (if a.serverCaused then 1 else 0),
                freeReplies := a.freeReplies + (if !penalty && !a.serverCaused then 1 else 0))
  }

  /** `authmethod_lookup`; "none" is enabled once. */
  function Lookup(cfg: Config, a: Auth, name: Text): Option<Method> {
    LookupIn(cfg.methods, a.noneUsed, name)
  }

  function LookupIn(ms: seq<Method>, noneUsed: bool, name: Text): (r: Option<Method>)
    ensures r.Some? ==> r.value in ms && r.value.name == name
  {
    if ms == [] then None
    else if ms[0].name == name && ms[0].enabled && (name == NONE_METHOD ==> !noneUsed) then Some(ms[0])
    else LookupIn(ms[1..], noneUsed, name)
  }

  function CutAt(s: Text, c: byte): Text {
    if s == [] || s[0] == c then [] else [s[0]] + CutAt(s[1..], c)
  }

  /** The user name without role and style. */
  function BareUser(s: Text): Text { CutAt(CutAt(s, SLASH), COLON) }

  /** The part of `input_userauth_request` that fixes the user on the first attempt. */
  function Identify(a: Auth, user: Text, service: Text, o: Oracle): Auth {
    var a1 := a.(attempt := a.attempt + 1);
    if a.attempt == 0 then
      a1.(user := Some(BareUser(user)), service := Some(service),
          valid := a.valid || (o.userKnown && service == SSH_CONNECTION))
    else if Some(BareUser(user)) != a.user || Some(service) != a.service then Die(a1)
    else a1
  }

  /** Running a method; a direct method answers through the oracle. */
  function Try(cfg: Config, a: Auth, m: Method, devs: Text, o: Oracle): (Auth, bool) {
    match m.kind
    case Interactive => (Challenge(cfg, a, devs, o), false)
    case Direct =>
      (a.(noneUsed := a.noneUsed || m.name == NONE_METHOD, postponed := o.postpones && !o.authenticated,
          serverCaused := o.serverCaused),
       o.authenticated)
  }

  /** `input_userauth_request` */
  function InputRequest(cfg: Config, a: Auth, m: Message, o: Oracle): Auth
    requires m.UserauthRequest?
  {
    var a1 := Identify(a, m.user, m.service, o);
    if a1.dead then a1
    else
      var a2 := ChallengeStop(a1).(postponed := false, serverCaused := false);
      var method_ := Lookup(cfg, a2, m.method_);
      var tried := method_.Some? && a2.failures < cfg.maxTries;
      var (a3, authenticated) := if tried then Try(cfg, a2, method_.value, m.devices, o) else (a2, false);
      Finish(cfg, a3, authenticated, m.method_ == NONE_METHOD, o)
  }

  /** `input_userauth_info_response`; `noContext` marks the three fatal checks at its beginning. */
  function InputInfoResponse(cfg: Config, a: Auth, nresp: nat, o: Oracle): Auth {
    if a.kbdint.None? || !a.kbdint.value.ctxt || a.kbdint.value.device.None? then Die(a).(noContext := true)
    else if nresp != a.kbdint.value.nreq || nresp > 100 then Die(a.(postponed := false))
    else
      var authenticated := o.response == 0 && a.valid;
      Finish(cfg, Continue(cfg, a, authenticated, o), authenticated, false, o)
  }

  /** After the device judged the response: ask again, stop, or start the next device. */
  function Continue(cfg: Config, a: Auth, authenticated: bool, o: Oracle): Auth
    requires a.kbdint.Some?
  {
    var again := o.response == 1 && o.requeryOk;
    if again then a.(postponed := true, kbdint := Some(a.kbdint.value.(nreq := o.prompts)))
    else if authenticated then ChallengeStop(a.(postponed := false))
    else ChallengeStart(cfg, a.(postponed := false), o)
  }

  /** `input_service_request` */
  function InputService(a: Auth, service: Text): Auth {
    if service == SSH_USERAUTH && !a.success then a.(onRequest := Installed) else Die(a)
  }

  /** One turn of `dispatch_run`, which ends with success or disconnection. */
  function Step(cfg: Config, a: Auth, m: Message, o: Oracle): Auth {
    if a.dead || a.success then a
    else
      match m
      case ServiceRequest(service) => InputService(a, service)
      case UserauthRequest(_, _, _, _) =>
        if a.onRequest == Installed then InputRequest(cfg, a, m, o) else if a.onRequest == NotSet then Die(a) else a
      case InfoResponse(nresp) =>
        if a.onInfoResponse == Installed then InputInfoResponse(cfg, a, nresp, o)
        else if a.onInfoResponse == NotSet then Die(a)
        else a
      case Other => a
  }

  function Run(cfg: Config, a: Auth, ms: seq<(Message, Oracle)>): Auth
    decreases |ms|
  {
    if ms == [] then a else Step(cfg, Run(cfg, a, ms[..|ms| - 1]), ms[|ms| - 1].0, ms[|ms| - 1].1)
  }

  const Fresh: Auth := Auth(0, 0, false, false, false, false, None, None, None, ProtocolError, ProtocolError, false,
                            0, 0, 0, 0, false, false)

  // ----- Invariants -----

  /** An installed response handler has a live device to talk to. */
  predicate HandlerOk(cfg: Config, a: Auth) {
    && (a.onInfoResponse == Installed ==>
          a.kbdint.Some? && a.kbdint.value.ctxt && a.kbdint.value.device.Some? && a.attempt > 0)
    && !a.noContext
  }

  predicate IdentityOk(a: Auth) {
    && (a.attempt == 0 <==> a.user.None?) && (a.user.None? <==> a.service.None?)
    && (a.success ==> a.valid) && (a.valid ==> a.service == Some(SSH_CONNECTION))
    && a.successReplies == if a.success then 1 else 0
  }

  /** The most failures a live connection can have. */
  function Cap(cfg: Config): nat { if cfg.maxTries == 0 then 0 else cfg.maxTries - 1 }

  predicate CountersOk(cfg: Config, a: Auth) {
    && (!a.dead ==> a.failures <= Cap(cfg))
    && a.failureReplies <= Min(a.failures, Cap(cfg)) + a.serverCausedReplies + a.freeReplies
    && a.freeReplies <= 1 && (a.attempt == 0 ==> a.freeReplies == 0)
    && (cfg.maxTries == 0 ==> a.failureReplies == 0)
  }

  predicate Inv(cfg: Config, a: Auth) {
    HandlerOk(cfg, a) && IdentityOk(a) && CountersOk(cfg, a)
  }

  /** The user, the service and their validity do not change once they are known. */
  predicate Frozen(a: Auth, a': Auth) {
    a.user.Some? ==> a'.user == a.user && a'.service == a.service && a'.valid == a.valid
  }

  // ----- Steps -----

  /** What starting and stopping sub-dialogues leaves alone. */
  predicate SameButDialogue(a: Auth, a': Auth) {
    a' == a.(kbdint := a'.kbdint, onInfoResponse := a'.onInfoResponse, postponed := a'.postponed)
  }

  lemma ChallengeStartOk(cfg: Config, a: Auth, o: Oracle)
    requires a.kbdint.Some? && !a.noContext && a.attempt > 0
    ensures var a' := ChallengeStart(cfg, a, o); SameButDialogue(a, a') && HandlerOk(cfg, a')
  {
  }

  lemma TryOk(cfg: Config, a: Auth, m: Method, devs: Text, o: Oracle)
    requires Inv(cfg, a) && !a.dead && !a.success && a.attempt > 0
    ensures var (a', authenticated) := Try(cfg, a, m, devs, o);
            && Inv(cfg, a') && !a'.dead && !a'.success && Frozen(a, a') && a'.attempt == a.attempt
            && a'.freeReplies == a.freeReplies
  {
    if m.kind.Interactive? && a.user.Some? {
      var a1 := if a.kbdint.None?
                then a.(kbdint := Some(NewDialogue(cfg, devs)))
                else a;
      ChallengeStartOk(cfg, a1, o);
      DialogueKeeps(cfg, a, ChallengeStart(cfg, a1, o));
    }
  }

  /** The reply: success at most once, or a failure that is counted, blamed on the server, or the free first "none". */
  lemma FinishOk(cfg: Config, a: Auth, authenticated: bool, isNone: bool, o: Oracle)
    requires Inv(cfg, a) && !a.dead && !a.success && a.attempt > 0
    requires isNone && a.attempt == 1 ==> a.freeReplies == 0
    ensures var a' := Finish(cfg, a, authenticated, isNone, o); Inv(cfg, a') && Frozen(a, a')
  {
  }

  lemma IdentifyOk(cfg: Config, a: Auth, user: Text, service: Text, o: Oracle)
    requires Inv(cfg, a) && !a.dead && !a.success
    ensures var a' := Identify(a, user, service, o);
            && Inv(cfg, a') && Frozen(a, a') && a'.attempt == a.attempt + 1 && !a'.success
            && (a'.attempt == 1 ==> a'.freeReplies == 0)
  {
  }

  lemma InputRequestOk(cfg: Config, a: Auth, m: Message, o: Oracle)
    requires Inv(cfg, a) && !a.dead && !a.success && m.UserauthRequest?
    ensures var a' := InputRequest(cfg, a, m, o); Inv(cfg, a') && Frozen(a, a')
  {
    IdentifyOk(cfg, a, m.user, m.service, o);
    var a1 := Identify(a, m.user, m.service, o);
    if !a1.dead {
      var a2 := ChallengeStop(a1).(postponed := false, serverCaused := false);
      var method_ := Lookup(cfg, a2, m.method_);
      var isNone := m.method_ == NONE_METHOD;
      if method_.Some? && a2.failures < cfg.maxTries {
        TryOk(cfg, a2, method_.value, m.devices, o);
        var (a3, authenticated) := Try(cfg, a2, method_.value, m.devices, o);
        FinishOk(cfg, a3, authenticated, isNone, o);
      } else {
        FinishOk(cfg, a2, false, isNone, o);
      }
    }
  }

  lemma InputInfoResponseOk(cfg: Config, a: Auth, nresp: nat, o: Oracle)
    requires Inv(cfg, a) && !a.dead && !a.success && a.onInfoResponse == Installed && a.attempt > 0
    ensures var a' := InputInfoResponse(cfg, a, nresp, o); Inv(cfg, a') && Frozen(a, a')
  {
    if nresp == a.kbdint.value.nreq && nresp <= 100 {
      var authenticated := o.response == 0 && a.valid;
      var a2 := Continue(cfg, a, authenticated, o);
      ContinueOk(cfg, a, authenticated, o);
      DialogueKeeps(cfg, a, a2);
      FinishOk(cfg, a2, authenticated, false, o);
    }
  }

  lemma ContinueOk(cfg: Config, a: Auth, authenticated: bool, o: Oracle)
    requires HandlerOk(cfg, a) && a.onInfoResponse == Installed
    ensures var a' := Continue(cfg, a, authenticated, o); SameButDialogue(a, a') && HandlerOk(cfg, a')
  {
    ChallengeStartOk(cfg, a.(postponed := false), o);
  }

  lemma DialogueKeeps(cfg: Config, a: Auth, a': Auth)
    requires Inv(cfg, a) && SameButDialogue(a, a') && HandlerOk(cfg, a')
    ensures Inv(cfg, a') && Frozen(a, a')
  {
  }

  /** Every message keeps the invariants and the identity. */
  lemma StepOk(cfg: Config, a: Auth, m: Message, o: Oracle)
    requires Inv(cfg, a)
    ensures Inv(cfg, Step(cfg, a, m, o)) && Frozen(a, Step(cfg, a, m, o))
  {
    if !a.dead && !a.success {
      QuietStepOk(cfg, a);
      match m
      case UserauthRequest(_, _, _, _) => InputRequestOk(cfg, a, m, o);
      case InfoResponse(nresp) => if a.onInfoResponse == Installed { InputInfoResponseOk(cfg, a, nresp, o); }
      case ServiceRequest(service) => assert InputService(a, service) in {a.(onRequest := Installed), Die(a)};
      case Other =>
    }
  }

  lemma QuietStepOk(cfg: Config, a: Auth)
    requires Inv(cfg, a) && !a.success
    ensures Inv(cfg, Die(a)) && Frozen(a, Die(a)) && Inv(cfg, a.(onRequest := Installed))
  {
  }

  lemma {:induction false} Always(cfg: Config, ms: seq<(Message, Oracle)>)
    ensures Inv(cfg, Run(cfg, Fresh, ms))
    decreases |ms|
  {
    if ms != [] {
      Always(cfg, ms[..|ms| - 1]);
      StepOk(cfg, Run(cfg, Fresh, ms[..|ms| - 1]), ms[|ms| - 1].0, ms[|ms| - 1].1);
    }
  }

  // ----- Main results, for every message sequence and every answer of the surroundings -----

  /** A live connection has fewer failures than allowed, and failure replies are bounded. */
  lemma FailuresAreBounded(cfg: Config, ms: seq<(Message, Oracle)>)
    ensures var a := Run(cfg, Fresh, ms);
            && (!a.dead && cfg.maxTries > 0 ==> a.failures < cfg.maxTries)
            && a.failureReplies <= cfg.maxTries + a.serverCausedReplies
  {
    Always(cfg, ms);
  }

  /** The checks for a missing dialogue context at the start of the response handler never fail. */
  lemma ResponseHasContext(cfg: Config, ms: seq<(Message, Oracle)>)
    ensures var a := Run(cfg, Fresh, ms);
            && !a.noContext
            && (a.onInfoResponse == Installed ==> a.kbdint.Some? && a.kbdint.value.ctxt && a.kbdint.value.device.Some?)
  {
    Always(cfg, ms);
  }

  /** Whatever is sent later, the user, the service and their validity stay those of the first request. */
  lemma {:induction false} IdentityIsFrozen(cfg: Config, first: seq<(Message, Oracle)>, later: seq<(Message, Oracle)>)
    ensures Frozen(Run(cfg, Fresh, first), Run(cfg, Fresh, first + later))
    decreases |later|
  {
    if later == [] {
      assert first + later == first;
    } else {
      var all, n := first + later, |first + later|;
      assert all[..n - 1] == first + later[..|later| - 1];
      IdentityIsFrozen(cfg, first, later[..|later| - 1]);
      Always(cfg, all[..n - 1]);
      StepOk(cfg, Run(cfg, Fresh, all[..n - 1]), all[n - 1].0, all[n - 1].1);
    }
  }
}

/** The authentication state as mutable objects. */
module UserAuthObjects {
  import opened NameLists
  import opened Options
  import opened UserAuth

  /** `KbdintAuthctxt` */
  class KbdintContext {
    var devices: Option<Text>
    var device: Option<nat>
    var ctxt: bool
    var nreq: nat

    ghost function View(): Kbdint
      reads this
    {
      Kbdint(devices, device, ctxt, nreq)
    }

    constructor (devs: Text)
      ensures View() == Kbdint(Some(devs), None, false, 0)
    {
      devices, device, ctxt, nreq := Some(devs), None, false, 0;
    }

    /** `kbdint_next_device` with its do-while loop over the remaining names. */
    method NextDevice(cfg: Config) returns (found: bool)
      modifies this
      ensures View() == UserAuth.NextDevice(cfg, old(View())) && found == device.Some?
    {
      if device.Some? {
        ctxt, device := false, None;
      }
      ghost var goal := Search(cfg.devices, devices);
      var more := true;
      while more
        invariant ctxt == (old(ctxt) && old(device).None?) && nreq == old(nreq)
        invariant if more then device.None? && Search(cfg.devices, devices) == goal else (devices, device) == goal
        decreases more, if devices.Some? then |devices.value| + 1 else 0
      {
        var len := if devices.Some? then CommaAt(devices.value) else 0;
        if len == 0 {
          break;
        }
        device := Scan(cfg.devices, devices.value[..len]);
        devices := AfterFirst(devices.value);
        more := devices.Some? && device.None?;
      }
      found := device.Some?;
    }
  }

  /** The scan over the device table, which keeps the last match. */
  method Scan(names: seq<Text>, token: Text) returns (device: Option<nat>)
    ensures device == LastMatch(names, token)
  {
    device := None;
    for i := 0 to |names|
      invariant device == LastMatch(names[..i], token)
    {
      assert names[..i + 1][..i] == names[..i];
      if Matches(token, names[i]) {
        device := Some(i);
      }
    }
    assert names[..|names|] == names;
  }

  /** The fields of `Authctxt` that a reply changes. */
  class Authctxt {
    var attempt: nat
    var failures: nat
    var success: bool
    var postponed: bool
    var valid: bool
    var serverCaused: bool
    var onRequest: Handler

    ghost predicate Holds(a: Auth)
      reads this
    {
      && a.attempt == attempt && a.failures == failures && a.success == success && a.postponed == postponed
      && a.valid == valid && a.serverCaused == serverCaused && a.onRequest == onRequest
    }

    constructor ()
      ensures Holds(Fresh)
    {
      attempt, failures := 0, 0;
      success, postponed, valid, serverCaused := false, false, false, false;
      onRequest := ProtocolError;
    }

    /** What `userauth_finish` sends, if it returns at all. */
    method UserauthFinish(ghost a: Auth, cfg: Config, authenticated: bool, isNone: bool, o: Oracle)
      returns (dead: bool, sent: seq<bool>)
      requires Holds(a) && !a.dead
      modifies this
      ensures Holds(Finish(cfg, a, authenticated, isNone, o)) && dead == Finish(cfg, a, authenticated, isNone, o).dead
      ensures var a' := Finish(cfg, a, authenticated, isNone, o);
              sent == (if a'.successReplies > a.successReplies then [true]
                       else if a'.failureReplies > a.failureReplies then [false] else [])
      ensures sent == [true] <==> authenticated && a.valid && !o.rootDenied && !a.postponed
    {
      sent := [];
      if !valid && authenticated {
        return true, [];
      }
      var ok := authenticated;
      if ok && o.rootDenied {
        ok := false;
      }
      if postponed {
        return false, [];
      }
      if ok {
        onRequest := Ignored;
        success := true;
        return false, [true];
      }
      if !serverCaused && (attempt > 1 || !isNone) {
        failures := failures + 1;
      }
      if failures >= cfg.maxTries {
        return true, [];
      }
      return false, [false];
    }
  }
}
