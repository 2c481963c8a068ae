/** What the fixed proposals of two peers decide about every run: the algorithms, and who dies of what. */
module KexOutcomes {
  import opened Bytes
  import opened ModGroup
  import opened Negotiation
  import opened Options
  import opened KexRuns
  import opened KexSafety
  import opened Wire

  // ----- Every KEXINIT of a connection says the same -----

  /** What the two proposals agree on, seen by the client. */
  function Agreement(w: World, cprop: Proposal, sprop: Proposal): Option<Conf> {
    if Sendable(cprop) && Sendable(sprop) then ChooseConf(w.suite, false, cprop, sprop) else None
  }

  /** The fixed group that goes with an agreement. */
  function AgreedGroup(w: World, conf: Option<Conf>): Option<DhGroup> {
    if conf.None? then None else w.group(conf.value.kexType)
  }

  /** The bytes tell a reader no more and no less than the proposal. */
  predicate Offers(b: seq<byte>, prop: Proposal) {
    ParseKexinit(b) == Offer(prop)
  }

  /** The choice made from the bytes of a KEXINIT of either side is the agreement. */
  lemma ChosenIsAgreed(w: World, ci: seq<byte>, si: seq<byte>, cprop: Proposal, sprop: Proposal)
    requires Offers(ci, cprop) && Offers(si, sprop)
    ensures var conf := Agreement(w, cprop, sprop);
            && Chosen(w, false, ci, si) == conf
            && Chosen(w, true, si, ci) == (if conf.None? then None else Some(Mirror(conf.value)))
            && GroupFor(w, false, ci, si) == AgreedGroup(w, conf) && GroupFor(w, true, si, ci) == AgreedGroup(w, conf)
  {
    GroupsAgree(w, ci, si);
  }

  ghost predicate OffersOwn(p: Peer) {
    Plain(p.prop) && forall i :: 0 <= i < |p.inits| ==> Offers(p.inits[i], p.prop)
  }

  /** Both peers keep their proposals, and every KEXINIT sent so far offers its sender's. */
  ghost predicate OffersOk(y: Sys, cprop: Proposal, sprop: Proposal) {
    y.c.prop == cprop && y.s.prop == sprop && OffersOwn(y.c) && OffersOwn(y.s)
  }

  /** A peer that sends a KEXINIT sends its own proposal, and nothing else changes what it offers. */
  predicate SameOffers(p: Peer, p': Peer, cookie: Cookie) {
    p'.prop == p.prop && (p'.inits == p.inits || p'.inits == p.inits + [Kexinit(cookie, p.prop)])
  }

  lemma OffersStay(p: Peer, p': Peer, cookie: Cookie)
    requires OffersOwn(p) && SameOffers(p, p', cookie)
    ensures OffersOwn(p')
  {
    KexinitRoundTrip(cookie, p.prop);
  }

  lemma ReceiveOffers(w: World, p: Peer, m: Msg, cookie: Cookie, priv: nat)
    requires w.Valid()
    ensures SameOffers(p, Receive(w, p, m, cookie, priv).0, cookie)
  {
    match p.phase
    case Ready => if m.KexInit? { EnterOffers(w, p, m.b, cookie, priv); }
    case _ =>
  }

  lemma EnterOffers(w: World, p: Peer, b: seq<byte>, cookie: Cookie, priv: nat)
    requires w.Valid()
    ensures SameOffers(p, InputKexinit(w, p, b, cookie, priv).0, cookie)
  {
    var (p1, sent) := SendKexinit(p.(peer := p.peer + b), cookie);
    assert SameOffers(p, p1, cookie);
    EnterKeepsOffers(w, p, p1, sent, Chosen(w, p1.server, p1.my, p1.peer), GroupFor(w, p1.server, p1.my, p1.peer),
                     priv);
  }

  lemma EnterKeepsOffers(w: World, p: Peer, p1: Peer, sent: seq<Msg>, conf: Option<Conf>, g: Option<DhGroup>, priv: nat)
    requires g.Some? ==> g.value.p > 1
    ensures var r := Enter(w, p, p1, sent, conf, g, priv).0;
            (r.prop == p.prop && r.inits == p.inits) || (r.prop == p1.prop && r.inits == p1.inits)
  {
  }

  lemma StepOffers(w: World, y: Sys, ev: Event, cprop: Proposal, sprop: Proposal)
    requires w.Valid() && OffersOk(y, cprop, sprop)
    ensures OffersOk(Step(w, y, ev), cprop, sprop)
  {
    var y' := Step(w, y, ev);
    match ev
    case RekeyClient(cookie) => OffersStay(y.c, y'.c, cookie);
    case RekeyServer(cookie) => OffersStay(y.s, y'.s, cookie);
    case ToClient(cookie, priv) =>
      if !y.c.dead && y.sc != [] { ReceiveOffers(w, y.c, y.sc[0], cookie, priv); }
      OffersStay(y.c, y'.c, cookie);
    case ToServer(cookie, priv) =>
      if !y.s.dead && y.cs != [] { ReceiveOffers(w, y.s, y.cs[0], cookie, priv); }
      OffersStay(y.s, y'.s, cookie);
  }

  // ----- What the agreement decides -----

  /** The agreement has a fixed group, large enough for the keys it needs: a handler can be entered. */
  predicate Enterable(w: World, conf: Option<Conf>) {
    conf.Some? && AgreedGroup(w, conf).Some? && GroupSuits(AgreedGroup(w, conf).value, conf.value.need)
  }

  /** Peers can agree on algorithms that kill them: the 1024-bit group is too small for a MAC key of 64 bytes. */
  lemma GroupCanBeTooSmall(g: DhGroup)
    requires NumBits(g.p) == 1024
    ensures GroupSuits(g, 63) && !GroupSuits(g, 64)
  {
  }

  /** The key of a private exponent passes the check of public values. */
  ghost predicate GoodKey(w: World, conf: Option<Conf>, priv: nat)
    requires w.Valid()
  {
    var g := AgreedGroup(w, conf);
    g.Some? && w.pubValid(g.value, ModExp(g.value.g, priv, g.value.p))
  }

  ghost predicate KeysGood(w: World, conf: Option<Conf>, privs: seq<nat>)
    requires w.Valid()
  {
    forall n :: 0 <= n < |privs| ==> Enterable(w, conf) && GoodKey(w, conf, privs[n])
  }

  /** What a side that computed an exchange has found out for good. */
  predicate ClientPassed(w: World, conf: Option<Conf>) {
    conf.Some? && conf.value.need > 0 && w.hostOk(w.hostBlob, conf.value.hostkeyType)
  }

  predicate ServerPassed(w: World, conf: Option<Conf>) {
    conf.Some? && conf.value.need > 0 && w.hostLoaded(conf.value.hostkeyType)
  }

  /** Every key in use is good, and every exchange computed passed the checks of its side. */
  ghost predicate Passed(w: World, conf: Option<Conf>, y: Sys)
    requires w.Valid()
  {
    && KeysGood(w, conf, y.c.privs) && KeysGood(w, conf, y.s.privs)
    && (y.c.hist != [] ==> ClientPassed(w, conf))
    && (y.s.hist != [] ==> ServerPassed(w, conf))
  }

  /** The packet at the head of its queue killed `p`, for one of the reasons a peer has to die. */
  predicate Reason(w: World, conf: Option<Conf>, p: Peer, queue: seq<Msg>) {
    && queue != []
    && match queue[0]
       case KexInit(_) => p.phase == Ready && (p.gaveUp || !Enterable(w, conf))
       case DhInit(_) => p.phase == Exchanging && p.server && !ServerPassed(w, conf)
       case DhReply(_, _, _) => p.phase == Exchanging && !p.server && !ClientPassed(w, conf)
       case NewKeys => false
  }

  /** What all runs keep, beyond the invariants of the protocol. */
  ghost predicate Outcomes(w: World, y: Sys, cprop: Proposal, sprop: Proposal)
    requires w.Valid()
  {
    var conf := Agreement(w, cprop, sprop);
    && OffersOk(y, cprop, sprop) && Passed(w, conf, y)
    && (y.c.gaveUp ==> y.c.dead) && (y.s.gaveUp ==> y.s.dead)
    && (y.c.dead ==> Reason(w, conf, y.c, y.sc))
    && (y.s.dead ==> Reason(w, conf, y.s, y.cs))
  }

  ghost predicate AllOk(w: World, y: Sys)
    requires w.Valid()
  {
    Inv(w, y) && Outcomes(w, y, y.c.prop, y.s.prop)
  }

  // ----- Reading a KEXINIT -----

  /** Exactly when a peer dies of a KEXINIT, and what it has otherwise. */
  lemma KexinitKills(w: World, p: Peer, q: Peer, b: seq<byte>, cookie: Cookie, priv: nat, conf: Option<Conf>)
    requires w.Valid() && !p.dead && !p.gaveUp && PeerOk(p) && p.phase == Ready && p.server != q.server
    requires OffersOwn(p) && OffersOwn(q) && b in q.inits
    requires conf == if p.server then Agreement(w, q.prop, p.prop) else Agreement(w, p.prop, q.prop)
    ensures var r := InputKexinit(w, p, b, cookie, priv).0;
            && (r.dead <==> !Enterable(w, conf) || !GoodKey(w, conf, priv))
            && (r.dead ==> DiedFrom(p, r) && (r.gaveUp <==> Enterable(w, conf)))
            && (!r.dead ==> r.privs == p.privs + [priv] && r.hist == p.hist && !r.gaveUp)
  {
    var my := SendKexinit(p.(peer := p.peer + b), cookie).0.my;
    KexinitRoundTrip(cookie, p.prop);
    assert Offers(my, p.prop) && Offers(b, q.prop) && p.peer + b == b;
    if p.server { ChosenIsAgreed(w, b, my, q.prop, p.prop); } else { ChosenIsAgreed(w, my, b, p.prop, q.prop); }
    var (p1, sent) := SendKexinit(p.(peer := p.peer + b), cookie);
    EnterResult(w, p, p1, sent, Chosen(w, p.server, my, p.peer + b), conf, priv);
  }

  /** The same, once the choice made from the bytes is known to be the agreement or its mirror image. */
  lemma EnterResult(w: World, p: Peer, p1: Peer, sent: seq<Msg>, chosen: Option<Conf>, conf: Option<Conf>, priv: nat)
    requires w.Valid() && !p.dead && !p.gaveUp && !p1.dead && !p1.gaveUp && p1.privs == p.privs && p1.hist == p.hist
    requires (chosen.Some? <==> conf.Some?) && (conf.Some? ==> chosen.value.need == conf.value.need)
    ensures var r := Enter(w, p, p1, sent, chosen, AgreedGroup(w, conf), priv).0;
            && (r.dead <==> !Enterable(w, conf) || !GoodKey(w, conf, priv))
            && (r.dead ==> DiedFrom(p, r) && (r.gaveUp <==> Enterable(w, conf)))
            && (!r.dead ==> r.privs == p.privs + [priv] && r.hist == p.hist && !r.gaveUp)
  {
  }

  lemma OneMoreKey(w: World, conf: Option<Conf>, privs: seq<nat>, priv: nat)
    requires w.Valid() && KeysGood(w, conf, privs) && Enterable(w, conf) && GoodKey(w, conf, priv)
    ensures KeysGood(w, conf, privs + [priv])
  {
  }

  lemma KexinitRead(w: World, p: Peer, q: Peer, queue: seq<Msg>, cookie: Cookie, priv: nat, conf: Option<Conf>)
    requires w.Valid() && !p.dead && !p.gaveUp && PeerOk(p) && p.phase == Ready && p.server != q.server
    requires OffersOwn(p) && OffersOwn(q) && queue != [] && queue[0].KexInit? && queue[0].b in q.inits
             && KeysGood(w, conf, p.privs)
    requires conf == if p.server then Agreement(w, q.prop, p.prop) else Agreement(w, p.prop, q.prop)
    ensures var r := InputKexinit(w, p, queue[0].b, cookie, priv).0;
            && (r.dead <==> !Enterable(w, conf) || !GoodKey(w, conf, priv))
            && (r.dead ==> Reason(w, conf, r, queue) && DiedFrom(p, r))
            && (!r.dead ==> KeysGood(w, conf, r.privs) && r.hist == p.hist && !r.gaveUp)
  {
    KexinitKills(w, p, q, queue[0].b, cookie, priv, conf);
    var r := InputKexinit(w, p, queue[0].b, cookie, priv).0;
    if !r.dead { OneMoreKey(w, conf, p.privs, priv); }
  }

  lemma ClientReadsKexinit(w: World, y: Sys, cookie: Cookie, priv: nat)
    requires w.Valid() && AllOk(w, y) && !y.c.dead && y.c.phase == Ready && y.sc != []
    ensures y.sc[0].KexInit?
    ensures var conf, r := Agreement(w, y.c.prop, y.s.prop), InputKexinit(w, y.c, y.sc[0].b, cookie, priv).0;
            && (r.dead <==> !Enterable(w, conf) || !GoodKey(w, conf, priv))
            && (r.dead ==> Reason(w, conf, r, y.sc) && DiedFrom(y.c, r))
            && (!r.dead ==> KeysGood(w, conf, r.privs) && r.hist == y.c.hist && !r.gaveUp)
  {
    HeadIsExpected(y.s, y.c, y.sc);
    KexinitRead(w, y.c, y.s, y.sc, cookie, priv, Agreement(w, y.c.prop, y.s.prop));
  }

  lemma ServerReadsKexinit(w: World, y: Sys, cookie: Cookie, priv: nat)
    requires w.Valid() && AllOk(w, y) && !y.s.dead && y.s.phase == Ready && y.cs != []
    ensures y.cs[0].KexInit?
    ensures var conf, r := Agreement(w, y.c.prop, y.s.prop), InputKexinit(w, y.s, y.cs[0].b, cookie, priv).0;
            && (r.dead <==> !Enterable(w, conf) || !GoodKey(w, conf, priv))
            && (r.dead ==> Reason(w, conf, r, y.cs) && DiedFrom(y.s, r))
            && (!r.dead ==> KeysGood(w, conf, r.privs) && r.hist == y.s.hist && !r.gaveUp)
  {
    HeadIsExpected(y.c, y.s, y.cs);
    KexinitRead(w, y.s, y.c, y.cs, cookie, priv, Agreement(w, y.c.prop, y.s.prop));
  }

  // ----- Reading a Diffie-Hellman message -----

  /** In an exchange, what a peer has chosen is the agreement. */
  lemma ExchangeIsAgreed(w: World, y: Sys)
    requires w.Valid() && Inv(w, y) && OffersOk(y, y.c.prop, y.s.prop)
    ensures var conf := Agreement(w, y.c.prop, y.s.prop);
            && (y.c.phase != Ready ==>
                  && Chosen(w, false, y.c.my, y.c.peer) == conf
                  && GroupFor(w, false, y.c.my, y.c.peer) == AgreedGroup(w, conf))
            && (y.s.phase != Ready ==>
                  && Chosen(w, true, y.s.my, y.s.peer) == (if conf.None? then None else Some(Mirror(conf.value)))
                  && GroupFor(w, true, y.s.my, y.s.peer) == AgreedGroup(w, conf))
  {
    if y.c.phase != Ready { ChosenIsAgreed(w, y.c.my, y.c.peer, y.c.prop, y.s.prop); }
    if y.s.phase != Ready { ChosenIsAgreed(w, y.s.peer, y.s.my, y.c.prop, y.s.prop); }
  }

  /** The server dies of KEXDH_INIT if and only if it has no host key or no keys to derive: the public value is good. */
  lemma ServerReadsDhInit(w: World, y: Sys)
    requires w.Valid() && AllOk(w, y) && !y.s.dead && y.s.phase == Exchanging && y.cs != []
    ensures y.cs[0].DhInit?
    ensures var conf, r := Agreement(w, y.c.prop, y.s.prop), InputInit(w, y.s, y.cs[0].e).0;
            (r.dead <==> !ServerPassed(w, conf)) && (r.dead ==> r == Die(y.s))
  {
    var n, conf := y.s.epoch, Agreement(w, y.c.prop, y.s.prop);
    ExchangeIsAgreed(w, y);
    HeadIsExpected(y.c, y.s, y.cs);
    assert ClientSentOk(w, y.c, y.s, n);
    ChosenIsAgreed(w, y.c.inits[n], y.s.inits[n], y.c.prop, y.s.prop);
    assert GoodKey(w, conf, y.c.privs[n]);
    InitResult(w, y.s, conf.value, AgreedGroup(w, conf).value, y.cs[0].e);
  }

  lemma InitResult(w: World, p: Peer, conf: Conf, g: DhGroup, e: nat)
    requires w.Valid() && !p.dead && w.pubValid(g, e) && g.p > 1
    ensures var r := InitWith(w, p, Some(Mirror(conf)), Some(g), e).0;
            (r.dead <==> conf.need == 0 || !w.hostLoaded(conf.hostkeyType)) && (r.dead ==> r == Die(p))
  {
  }

  /** The client dies of KEXDH_REPLY if and only if it refuses the host key or has no keys to derive. */
  lemma ClientReadsDhReply(w: World, y: Sys)
    requires w.Valid() && AllOk(w, y) && !y.c.dead && y.c.phase == Exchanging && y.sc != []
    ensures y.sc[0].DhReply?
    ensures var conf := Agreement(w, y.c.prop, y.s.prop);
            var r := InputReply(w, y.c, y.sc[0].blob, y.sc[0].f, y.sc[0].sig).0;
            (r.dead <==> !ClientPassed(w, conf)) && (r.dead ==> r == Die(y.c))
  {
    var n, conf := y.c.epoch, Agreement(w, y.c.prop, y.s.prop);
    ExchangeIsAgreed(w, y);
    HeadIsExpected(y.s, y.c, y.sc);
    assert ServerSentOk(w, y.c, y.s, n);
    ChosenIsAgreed(w, y.c.inits[n], y.s.inits[n], y.c.prop, y.s.prop);
    assert GoodKey(w, conf, y.s.privs[n]);
    if !Needless(w, y.c) { ClientComputes(w, y.c, y.s, y.sc[0].f, y.sc[0].sig); }
    ReplyResult(w, y.c, conf.value, AgreedGroup(w, conf).value, y.sc[0].f, y.sc[0].sig);
  }

  lemma ReplyResult(w: World, p: Peer, conf: Conf, g: DhGroup, f: nat, sig: seq<byte>)
    requires w.Valid() && !p.dead && w.pubValid(g, f) && g.p > 1
    requires conf.need > 0 ==>
               var e, k := ModExp(g.g, p.priv, g.p), ModExp(f, p.priv, g.p);
               w.verify(w.hostBlob, sig, ComputeWith(w, p, conf, w.hostBlob, e, f, k).hash)
    ensures var r := ReplyWith(w, p, Some(conf), Some(g), w.hostBlob, f, sig).0;
            (r.dead <==> conf.need == 0 || !w.hostOk(w.hostBlob, conf.hostkeyType)) && (r.dead ==> r == Die(p))
  {
  }

  // ----- Steps -----

  /** What a live peer has become by reading the head of its queue. */
  ghost predicate ReadOk(w: World, conf: Option<Conf>, p: Peer, p': Peer, queue: seq<Msg>, passed: bool)
    requires w.Valid()
  {
    && (p'.dead ==> Reason(w, conf, p', queue) && DiedFrom(p, p'))
    && (!p'.dead ==> KeysGood(w, conf, p'.privs) && (p'.hist != [] ==> passed) && !p'.gaveUp)
  }

  lemma ClientReads(w: World, y: Sys, cookie: Cookie, priv: nat)
    requires w.Valid() && AllOk(w, y) && !y.c.dead && y.sc != []
    ensures var conf := Agreement(w, y.c.prop, y.s.prop);
            ReadOk(w, conf, y.c, Receive(w, y.c, y.sc[0], cookie, priv).0, y.sc, ClientPassed(w, conf))
  {
    NeverConfused(w, y);
    match y.c.phase
    case Ready => ClientReadsKexinit(w, y, cookie, priv);
    case Exchanging => ClientReadsDhReply(w, y);
    case Finishing =>
  }

  lemma ServerReads(w: World, y: Sys, cookie: Cookie, priv: nat)
    requires w.Valid() && AllOk(w, y) && !y.s.dead && y.cs != []
    ensures var conf := Agreement(w, y.c.prop, y.s.prop);
            ReadOk(w, conf, y.s, Receive(w, y.s, y.cs[0], cookie, priv).0, y.cs, ServerPassed(w, conf))
  {
    NeverConfused(w, y);
    match y.s.phase
    case Ready => ServerReadsKexinit(w, y, cookie, priv);
    case Exchanging => ServerReadsDhInit(w, y);
    case Finishing =>
  }

  /** A dead peer does not read or send, and what is sent to it queues up. */
  lemma DeadPeersWait(w: World, y: Sys, ev: Event)
    requires w.Valid()
    ensures y.c.dead ==> Step(w, y, ev).c == y.c && y.sc <= Step(w, y, ev).sc
    ensures y.s.dead ==> Step(w, y, ev).s == y.s && y.cs <= Step(w, y, ev).cs
  {
    match ev
    case RekeyClient(_) =>
    case RekeyServer(_) =>
    case ToClient(_, _) =>
    case ToServer(_, _) =>
  }

  lemma ReasonStays(w: World, conf: Option<Conf>, p: Peer, queue: seq<Msg>, longer: seq<Msg>)
    requires Reason(w, conf, p, queue) && queue <= longer
    ensures Reason(w, conf, p, longer)
  {
    assert longer[0] == queue[0];
  }

  /** A peer that asks for a new exchange keeps its keys and its exchanges. */
  lemma RekeyChanges(p: Peer, cookie: Cookie)
    ensures var p' := Rekey(p, cookie).0;
            p'.privs == p.privs && p'.hist == p.hist && p'.dead == p.dead && p'.gaveUp == p.gaveUp
  {
  }

  /** What one side keeps. */
  ghost predicate SideOk(w: World, conf: Option<Conf>, p: Peer, queue: seq<Msg>, passed: bool)
    requires w.Valid()
  {
    && KeysGood(w, conf, p.privs) && (p.hist != [] ==> passed) && (p.gaveUp ==> p.dead)
    && (p.dead ==> Reason(w, conf, p, queue))
  }

  lemma RekeySideOk(w: World, conf: Option<Conf>, p: Peer, cookie: Cookie, queue: seq<Msg>, passed: bool)
    requires w.Valid() && SideOk(w, conf, p, queue, passed) && !p.dead
    ensures SideOk(w, conf, Rekey(p, cookie).0, queue, passed)
  {
    RekeyChanges(p, cookie);
  }

  lemma DeadSideOk(w: World, conf: Option<Conf>, p: Peer, queue: seq<Msg>, longer: seq<Msg>, passed: bool)
    requires w.Valid() && SideOk(w, conf, p, queue, passed) && p.dead && queue <= longer
    ensures SideOk(w, conf, p, longer, passed)
  {
    ReasonStays(w, conf, p, queue, longer);
  }

  lemma ReadSideOk(w: World, conf: Option<Conf>, p: Peer, p': Peer, queue: seq<Msg>, queue': seq<Msg>, passed: bool)
    requires w.Valid() && SideOk(w, conf, p, queue, passed) && !p.dead && ReadOk(w, conf, p, p', queue, passed)
    requires p'.dead ==> queue' == queue
    ensures SideOk(w, conf, p', queue', passed)
  {
    if p'.dead { assert p'.privs == p.privs && p'.hist == p.hist; }
  }

  /** What a step makes of the client, given what reading makes of it. */
  lemma ClientStep(w: World, y: Sys, ev: Event, conf: Option<Conf>, passed: bool)
    requires w.Valid() && SideOk(w, conf, y.c, y.sc, passed)
    requires ev.ToClient? && y.sc != [] && !y.c.dead ==>
               ReadOk(w, conf, y.c, Receive(w, y.c, y.sc[0], ev.cookie, ev.priv).0, y.sc, passed)
    ensures SideOk(w, conf, Step(w, y, ev).c, Step(w, y, ev).sc, passed)
  {
    var y' := Step(w, y, ev);
    if y.c.dead {
      DeadPeersWait(w, y, ev);
      DeadSideOk(w, conf, y.c, y.sc, y'.sc, passed);
    } else {
      match ev
      case RekeyClient(cookie) => RekeySideOk(w, conf, y.c, cookie, y.sc, passed);
      case ToClient(cookie, priv) =>
        if y.sc != [] {
          var c' := Receive(w, y.c, y.sc[0], cookie, priv).0;
          ReadSideOk(w, conf, y.c, c', y.sc, if c'.dead then y.sc else y.sc[1..], passed);
        }
      case _ => assert y'.c == y.c;
    }
  }

  lemma ServerStep(w: World, y: Sys, ev: Event, conf: Option<Conf>, passed: bool)
    requires w.Valid() && SideOk(w, conf, y.s, y.cs, passed)
    requires ev.ToServer? && y.cs != [] && !y.s.dead ==>
               ReadOk(w, conf, y.s, Receive(w, y.s, y.cs[0], ev.cookie, ev.priv).0, y.cs, passed)
    ensures SideOk(w, conf, Step(w, y, ev).s, Step(w, y, ev).cs, passed)
  {
    var y' := Step(w, y, ev);
    if y.s.dead {
      DeadPeersWait(w, y, ev);
      DeadSideOk(w, conf, y.s, y.cs, y'.cs, passed);
    } else {
      match ev
      case RekeyServer(cookie) => RekeySideOk(w, conf, y.s, cookie, y.cs, passed);
      case ToServer(cookie, priv) =>
        if y.cs != [] {
          var s' := Receive(w, y.s, y.cs[0], cookie, priv).0;
          ReadSideOk(w, conf, y.s, s', y.cs, if s'.dead then y.cs else y.cs[1..], passed);
        }
      case _ => assert y'.s == y.s;
    }
  }

  lemma StepOutcomes(w: World, y: Sys, ev: Event)
    requires w.Valid() && AllOk(w, y)
    ensures Outcomes(w, Step(w, y, ev), y.c.prop, y.s.prop)
  {
    StepOffers(w, y, ev, y.c.prop, y.s.prop);
    var conf := Agreement(w, y.c.prop, y.s.prop);
    if ev.ToClient? && y.sc != [] && !y.c.dead { ClientReads(w, y, ev.cookie, ev.priv); }
    if ev.ToServer? && y.cs != [] && !y.s.dead { ServerReads(w, y, ev.cookie, ev.priv); }
    ClientStep(w, y, ev, conf, ClientPassed(w, conf));
    ServerStep(w, y, ev, conf, ServerPassed(w, conf));
  }

  lemma StepAllOk(w: World, y: Sys, ev: Event)
    requires w.Valid() && AllOk(w, y)
    ensures AllOk(w, Step(w, y, ev))
  {
    StepKeeps(w, y, ev);
    StepOutcomes(w, y, ev);
  }

  // ----- Main results, for every run from `kex_setup` on both sides -----

  lemma {:induction false} AllOkAlways(w: World, y: Sys, evs: seq<Event>)
    requires w.Valid() && AllOk(w, y)
    ensures AllOk(w, Run(w, y, evs))
    decreases |evs|
  {
    if evs != [] {
      AllOkAlways(w, y, evs[..|evs| - 1]);
      StepAllOk(w, Run(w, y, evs[..|evs| - 1]), evs[|evs| - 1]);
    }
  }

  lemma StartAllOk(w: World, cprop: Proposal, sprop: Proposal, ccookie: Cookie, scookie: Cookie)
    requires w.Valid() && Plain(cprop) && Plain(sprop)
    ensures AllOk(w, Start(cprop, sprop, ccookie, scookie))
  {
    StartHolds(w, cprop, sprop, ccookie, scookie);
    KexinitRoundTrip(ccookie, cprop);
    KexinitRoundTrip(scookie, sprop);
  }

  lemma ReachableAllOk(w: World, y: Sys)
    requires w.Valid() && Reachable(w, y)
    ensures AllOk(w, y)
  {
    var cprop: Proposal, sprop: Proposal, ccookie: Cookie, scookie: Cookie, evs: seq<Event> :|
      Plain(cprop) && Plain(sprop) && y == Run(w, Start(cprop, sprop, ccookie, scookie), evs);
    StartAllOk(w, cprop, sprop, ccookie, scookie);
    AllOkAlways(w, Start(cprop, sprop, ccookie, scookie), evs);
  }

  /**
   * A peer that died has the packet that killed it in front of it: a KEXINIT although the proposals agree on nothing
   * with a large enough fixed group, or because the generation of a key was given up; a Diffie-Hellman message because
   * the server has no host key of the agreed type, the client refuses the host key, or the agreed algorithms need no
   * keys. No public value is ever refused, and no signature fails.
   */
  lemma DeathHasAReason(w: World, y: Sys)
    requires w.Valid() && Reachable(w, y)
    ensures var conf := Agreement(w, y.c.prop, y.s.prop);
            (y.c.dead ==> Reason(w, conf, y.c, y.sc)) && (y.s.dead ==> Reason(w, conf, y.s, y.cs))
  {
    ReachableAllOk(w, y);
  }

  /** When the packet in front of a peer that waits for it kills the peer. */
  ghost predicate Kills(w: World, conf: Option<Conf>, m: Msg, priv: nat)
    requires w.Valid()
  {
    match m
    case KexInit(_) => !Enterable(w, conf) || !GoodKey(w, conf, priv)
    case DhInit(_) => !ServerPassed(w, conf)
    case DhReply(_, _, _) => !ClientPassed(w, conf)
    case NewKeys => false
  }

  /** A live peer dies of the packet in front of it if and only if the fixed proposals, hosts and coins say so. */
  lemma PacketKillsIff(w: World, y: Sys, cookie: Cookie, priv: nat)
    requires w.Valid() && Reachable(w, y)
    ensures var conf := Agreement(w, y.c.prop, y.s.prop);
            && (y.sc != [] && !y.c.dead ==>
                  (Receive(w, y.c, y.sc[0], cookie, priv).0.dead <==> Kills(w, conf, y.sc[0], priv)))
            && (y.cs != [] && !y.s.dead ==>
                  (Receive(w, y.s, y.cs[0], cookie, priv).0.dead <==> Kills(w, conf, y.cs[0], priv)))
  {
    ReachableAllOk(w, y);
    NeverConfused(w, y);
    if y.sc != [] && !y.c.dead { ClientKilledIff(w, y, cookie, priv); }
    if y.cs != [] && !y.s.dead { ServerKilledIff(w, y, cookie, priv); }
  }

  lemma ClientKilledIff(w: World, y: Sys, cookie: Cookie, priv: nat)
    requires w.Valid() && AllOk(w, y) && y.sc != [] && !y.c.dead
    ensures Receive(w, y.c, y.sc[0], cookie, priv).0.dead <==>
            Kills(w, Agreement(w, y.c.prop, y.s.prop), y.sc[0], priv)
  {
    NeverConfused(w, y);
    match y.c.phase
    case Ready => ClientReadsKexinit(w, y, cookie, priv);
    case Exchanging => ClientReadsDhReply(w, y);
    case Finishing =>
  }

  lemma ServerKilledIff(w: World, y: Sys, cookie: Cookie, priv: nat)
    requires w.Valid() && AllOk(w, y) && y.cs != [] && !y.s.dead
    ensures Receive(w, y.s, y.cs[0], cookie, priv).0.dead <==>
            Kills(w, Agreement(w, y.c.prop, y.s.prop), y.cs[0], priv)
  {
    NeverConfused(w, y);
    match y.s.phase
    case Ready => ServerReadsKexinit(w, y, cookie, priv);
    case Exchanging => ServerReadsDhInit(w, y);
    case Finishing =>
  }

  /** An exchange that a side computed used the agreement. */
  ghost predicate UsedAgreement(w: World, conf: Option<Conf>, p: Peer, x: Exchange) {
    && Enterable(w, conf) && conf.value.need > 0
    && var ctos := if p.server then x.keys.modeIn else x.keys.modeOut;
       var stoc := if p.server then x.keys.modeOut else x.keys.modeIn;
       ctos.alg == conf.value.modeOut && stoc.alg == conf.value.modeIn
  }

  lemma EntryUsesAgreement(w: World, y: Sys, p: Peer, n: nat)
    requires w.Valid() && AllOk(w, y) && n < |p.hist| && EntryOk(w, p, y.c, y.s, n)
    ensures UsedAgreement(w, Agreement(w, y.c.prop, y.s.prop), p, p.hist[n])
  {
    var ci, si := y.c.inits[n], y.s.inits[n];
    ChosenIsAgreed(w, ci, si, y.c.prop, y.s.prop);
    EntryIsLettered(w, p.server, p.hist[0].hash, p.hist[n], ci, si, y.c.privs[n], y.s.privs[n]);
    assert GoodKey(w, Agreement(w, y.c.prop, y.s.prop), y.c.privs[n]);
  }

  /** All exchanges of a connection use the same algorithms, those the two proposals agree on. */
  lemma AlgorithmsNeverChange(w: World, y: Sys, n: nat)
    requires w.Valid() && Reachable(w, y)
    ensures var conf := Agreement(w, y.c.prop, y.s.prop);
            && (n < |y.c.hist| ==> UsedAgreement(w, conf, y.c, y.c.hist[n]))
            && (n < |y.s.hist| ==> UsedAgreement(w, conf, y.s, y.s.hist[n]))
  {
    ReachableAllOk(w, y);
    if n < |y.c.hist| { EntryUsesAgreement(w, y, y.c, n); }
    if n < |y.s.hist| { EntryUsesAgreement(w, y, y.s, n); }
  }

  /** Once both sides have computed an exchange, a peer can only die by giving up the generation of a key. */
  lemma RekeyNeverFails(w: World, y: Sys)
    requires w.Valid() && Reachable(w, y) && y.c.hist != [] && y.s.hist != []
    ensures (y.c.dead ==> y.c.gaveUp) && (y.s.dead ==> y.s.gaveUp)
  {
    ReachableAllOk(w, y);
    AlgorithmsNeverChange(w, y, 0);
  }

  /**
   * No deadlock: when nothing is under way, both peers live, are between handlers and have finished the same exchanges.
   */
  lemma QuietMeansDone(w: World, y: Sys)
    requires w.Valid() && Reachable(w, y) && y.cs == [] && y.sc == []
    ensures !y.c.dead && !y.s.dead && y.c.phase == Ready && y.s.phase == Ready
    ensures y.c.done && y.s.done && y.c.epoch == y.s.epoch
  {
    ReachableAllOk(w, y);
  }

  // ----- What a peer accepts from anybody -----

  /** The hash of section 8 of RFC 4253 over these KEXINIT payloads, host key, public values and secret. */
  ghost function ExchangeHash(w: World, ci: seq<byte>, si: seq<byte>, blob: seq<byte>, e: nat, f: nat, k: nat)
    : seq<byte>
  {
    w.digest.hash(EncodeAll([String(w.clientVersion), String(w.serverVersion), String([20] + ci), String([20] + si)]
                            + [String(blob), Mpint(e), Mpint(f), Mpint(k)]))
  }

  /** The conditions under which a client accepts a reply, for the choice and the group it has negotiated. */
  ghost predicate AcceptsReply(w: World, p: Peer, conf: Option<Conf>, g: Option<DhGroup>, blob: seq<byte>, f: nat,
                               sig: seq<byte>)
    requires g.Some? ==> g.value.p > 1
  {
    && conf.Some? && conf.value.need > 0 && g.Some?
    && w.hostOk(blob, conf.value.hostkeyType) && w.pubValid(g.value, f)
    && w.verify(blob, sig, ExchangeHash(w, p.my, p.peer, blob, Pow(g.value.g, p.priv) % g.value.p, f,
                                        Pow(f, p.priv) % g.value.p))
  }

  lemma ReplyWithIff(w: World, p: Peer, conf: Option<Conf>, g: Option<DhGroup>, blob: seq<byte>, f: nat, sig: seq<byte>)
    requires w.Valid() && !p.server && !p.dead && (g.Some? ==> g.value.p > 1)
    ensures !ReplyWith(w, p, conf, g, blob, f, sig).0.dead <==> AcceptsReply(w, p, conf, g, blob, f, sig)
  {
    if g.Some? {
      TranscriptAsItems(w, p.my, p.peer, blob, Pow(g.value.g, p.priv) % g.value.p, f, Pow(f, p.priv) % g.value.p);
    }
  }

  /**
   * A client survives a reply, whoever made it, if and only if the host key and the public value are acceptable and
   * the signature holds for the hash over its own view of the exchange.
   */
  lemma ReplyIsChecked(w: World, p: Peer, blob: seq<byte>, f: nat, sig: seq<byte>, cookie: Cookie, priv: nat)
    requires w.Valid() && !p.server && p.phase == Exchanging && !p.dead
    ensures var conf, g := Chosen(w, false, p.my, p.peer), SharedGroup(w, p.my, p.peer);
            !Receive(w, p, DhReply(blob, f, sig), cookie, priv).0.dead <==> AcceptsReply(w, p, conf, g, blob, f, sig)
  {
    ReplyWithIff(w, p, Chosen(w, false, p.my, p.peer), SharedGroup(w, p.my, p.peer), blob, f, sig);
  }

  /**
   * A server survives an offer, whoever made it, if and only if it has the host key and the public value is
   * acceptable; it then answers with its host key, its public value and its signature of the hash over its own view.
   */
  lemma OfferIsChecked(w: World, p: Peer, e: nat, cookie: Cookie, priv: nat)
    requires w.Valid() && p.server && p.phase == Exchanging && !p.dead
    ensures var conf, g := Chosen(w, true, p.my, p.peer), GroupFor(w, true, p.my, p.peer);
            var (p', sent) := Receive(w, p, DhInit(e), cookie, priv);
            && (!p'.dead <==> conf.Some? && conf.value.need > 0 && g.Some? && w.hostLoaded(conf.value.hostkeyType)
                              && w.pubValid(g.value, e))
            && (!p'.dead ==>
                  var f := Pow(g.value.g, p.priv) % g.value.p;
                  var h := ExchangeHash(w, p.peer, p.my, w.hostBlob, e, f, Pow(e, p.priv) % g.value.p);
                  sent == [DhReply(w.hostBlob, f, w.sign(h)), NewKeys])
  {
    var g := GroupFor(w, true, p.my, p.peer);
    if g.Some? {
      TranscriptAsItems(w, p.peer, p.my, w.hostBlob, e, Pow(g.value.g, p.priv) % g.value.p,
                        Pow(e, p.priv) % g.value.p);
    }
  }
}
