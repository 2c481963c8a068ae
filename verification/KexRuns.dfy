/** Initial and repeated Diffie-Hellman key exchanges between two peers: kex.c, kexdhc.c, kexdhs.c and kexdh.c. */
module KexRuns {
  import opened Bytes
  import opened Wire
  import opened ModGroup
  import opened Negotiation
  import opened Options
  import opened KeyDerivation

  const SSH2_MSG_KEXINIT: byte := 20
  const INT_MAX := 0x7fff_ffff

  type Cookie = c: seq<byte> | |c| == KEX_COOKIE_LEN witness [0, 0, 0, 0, 0, 0, 0, 0, 0, 0, 0, 0, 0, 0, 0, 0]

  datatype DhGroup = DhGroup(p: nat, g: nat)

  /**
   * What both peers share or look up: compiled-in algorithms, the hash, the fixed groups, and the server's host key,
   * which it has loaded for some types. The checks of public values and host keys are arbitrary functions.
   */
  datatype World = World(
    suite: Suite, digest: Digest, group: nat -> Option<DhGroup>, pubValid: (DhGroup, nat) -> bool,
    hostBlob: seq<byte>, hostLoaded: nat -> bool, hostOk: (seq<byte>, nat) -> bool, sign: seq<byte> -> seq<byte>,
    verify: (seq<byte>, seq<byte>, seq<byte>) -> bool,
    clientVersion: seq<byte>, serverVersion: seq<byte>)
  {
    /** The signature scheme is correct: what the server's key signs verifies under it. */
    ghost predicate Valid() {
      && digest.Valid()
      && (forall t :: group(t).Some? ==> group(t).value.p > 1)
      && (forall h :: verify(hostBlob, sign(h), h))
    }
  }

  datatype Msg = KexInit(b: seq<byte>) | DhInit(e: nat) | DhReply(blob: seq<byte>, f: nat, sig: seq<byte>) | NewKeys

  /** Another cookie in front of the rest of a proposal. */
  lemma NewCookie(was: Cookie, cookie: Cookie, prop: Proposal)
    ensures |Kexinit(was, prop)| >= KEX_COOKIE_LEN
    ensures cookie + Kexinit(was, prop)[KEX_COOKIE_LEN..] == Kexinit(cookie, prop)
  {
    var tail := EncodeAll(Strings(prop)) + (Encode(Char(0)) + Encode(Int(0)));
    assert (was + tail)[KEX_COOKIE_LEN..] == tail;
  }

  // ----- kex_dh_hash -----

  /** The bytes `kex_dh_hash` appends, in its order; each KEXINIT gets a length and a message number in front. */
  function Transcript(w: World, ci: seq<byte>, si: seq<byte>, blob: seq<byte>, e: nat, f: nat, k: nat): seq<byte> {
    TranscriptFront(w, ci, si) + (Encode(String(blob)) + (Encode(Mpint(e)) + (Encode(Mpint(f)) + Encode(Mpint(k)))))
  }

  function TranscriptFront(w: World, ci: seq<byte>, si: seq<byte>): seq<byte> {
    Encode(String(w.clientVersion)) + (Encode(String(w.serverVersion)) + (FakeMessage(ci) + FakeMessage(si)))
  }

  function FakeMessage(i: seq<byte>): seq<byte> {
    Fixed(|i| + 1, 4) + [SSH2_MSG_KEXINIT] + i
  }

  function TranscriptItems(w: World, ci: seq<byte>, si: seq<byte>, blob: seq<byte>, e: nat, f: nat, k: nat): seq<Item> {
    [String(w.clientVersion), String(w.serverVersion), String([20] + ci), String([20] + si)]
    + [String(blob), Mpint(e), Mpint(f), Mpint(k)]
  }

  lemma FakeHeader(i: seq<byte>)
    ensures FakeMessage(i) == Encode(String([SSH2_MSG_KEXINIT] + i))
  {
    Assoc(Fixed(|i| + 1, 4), [SSH2_MSG_KEXINIT], i);
  }

  lemma {:induction false} EncodeConcat(a: seq<Item>, b: seq<Item>)
    ensures EncodeAll(a + b) == EncodeAll(a) + EncodeAll(b)
  {
    if a == [] {
      assert a + b == b;
    } else {
      assert (a + b)[1..] == a[1..] + b;
      EncodeConcat(a[1..], b);
      Assoc(Encode(a[0]), EncodeAll(a[1..]), EncodeAll(b));
    }
  }

  lemma {:induction false} KindsConcat(a: seq<Item>, b: seq<Item>)
    ensures Kinds(a + b) == Kinds(a) + Kinds(b)
  {
    if a == [] {
      assert a + b == b;
    } else {
      assert (a + b)[1..] == a[1..] + b;
      KindsConcat(a[1..], b);
    }
  }

  lemma EncodeOne(a: Item)
    ensures EncodeAll([a]) == Encode(a) && Kinds([a]) == [a.Kind()]
  {
    assert [a][1..] == [];
    assert Encode(a) + [] == Encode(a);
  }

  lemma EncodeFour(a: Item, b: Item, c: Item, d: Item)
    ensures EncodeAll([a, b, c, d]) == Encode(a) + (Encode(b) + (Encode(c) + Encode(d)))
    ensures Kinds([a, b, c, d]) == [a.Kind(), b.Kind(), c.Kind(), d.Kind()]
  {
    EncodeOne(a);
    EncodeOne(b);
    EncodeOne(c);
    EncodeOne(d);
    EncodeConcat([c], [d]);
    EncodeConcat([b], [c] + [d]);
    EncodeConcat([a], [b] + ([c] + [d]));
    KindsConcat([c], [d]);
    KindsConcat([b], [c] + [d]);
    KindsConcat([a], [b] + ([c] + [d]));
    assert [a, b, c, d] == [a] + ([b] + ([c] + [d]));
  }

  /** The transcript is a list of wire strings and numbers. */
  lemma TranscriptAsItems(w: World, ci: seq<byte>, si: seq<byte>, blob: seq<byte>, e: nat, f: nat, k: nat)
    ensures Transcript(w, ci, si, blob, e, f, k) == EncodeAll(TranscriptItems(w, ci, si, blob, e, f, k))
    ensures Kinds(TranscriptItems(w, ci, si, blob, e, f, k))
            == [KString, KString, KString, KString] + [KString, KMpint, KMpint, KMpint]
  {
    FakeHeader(ci);
    FakeHeader(si);
    EncodeFour(String(w.clientVersion), String(w.serverVersion), String([SSH2_MSG_KEXINIT] + ci),
               String([SSH2_MSG_KEXINIT] + si));
    EncodeFour(String(blob), Mpint(e), Mpint(f), Mpint(k));
    var front := [String(w.clientVersion), String(w.serverVersion), String([SSH2_MSG_KEXINIT] + ci),
                  String([SSH2_MSG_KEXINIT] + si)];
    EncodeConcat(front, [String(blob), Mpint(e), Mpint(f), Mpint(k)]);
    KindsConcat(front, [String(blob), Mpint(e), Mpint(f), Mpint(k)]);
  }

  /** Hashing equal transcripts means having seen the same negotiation, host key, public values and secret. */
  lemma TranscriptIsInjective(w: World, ci: seq<byte>, si: seq<byte>, blob: seq<byte>, e: nat, f: nat, k: nat,
                              w': World, ci': seq<byte>, si': seq<byte>, blob': seq<byte>, e': nat, f': nat, k': nat)
    requires AllWritable(TranscriptItems(w, ci, si, blob, e, f, k))
    requires AllWritable(TranscriptItems(w', ci', si', blob', e', f', k'))
    requires Transcript(w, ci, si, blob, e, f, k) == Transcript(w', ci', si', blob', e', f', k')
    ensures w.clientVersion == w'.clientVersion && w.serverVersion == w'.serverVersion
    ensures ci == ci' && si == si' && blob == blob' && e == e' && f == f' && k == k'
  {
    var a, b := TranscriptItems(w, ci, si, blob, e, f, k), TranscriptItems(w', ci', si', blob', e', f', k');
    TranscriptAsItems(w, ci, si, blob, e, f, k);
    TranscriptAsItems(w', ci', si', blob', e', f', k');
    ListInjective(a, b, [], []);
    SameItems(w, ci, si, blob, e, f, k, w', ci', si', blob', e', f', k');
  }

  lemma SameItems(w: World, ci: seq<byte>, si: seq<byte>, blob: seq<byte>, e: nat, f: nat, k: nat,
                  w': World, ci': seq<byte>, si': seq<byte>, blob': seq<byte>, e': nat, f': nat, k': nat)
    requires TranscriptItems(w, ci, si, blob, e, f, k) == TranscriptItems(w', ci', si', blob', e', f', k')
    ensures w.clientVersion == w'.clientVersion && w.serverVersion == w'.serverVersion
    ensures ci == ci' && si == si' && blob == blob' && e == e' && f == f' && k == k'
  {
    var a, b := TranscriptItems(w, ci, si, blob, e, f, k), TranscriptItems(w', ci', si', blob', e', f', k');
    assert a[0] == b[0] && a[1] == b[1] && a[2] == b[2] && a[3] == b[3];
    assert a[4] == b[4] && a[5] == b[5] && a[6] == b[6] && a[7] == b[7];
    assert ([SSH2_MSG_KEXINIT] + ci)[1..] == ci && ([SSH2_MSG_KEXINIT] + ci')[1..] == ci';
    assert ([SSH2_MSG_KEXINIT] + si)[1..] == si && ([SSH2_MSG_KEXINIT] + si')[1..] == si';
  }

  // ----- One peer -----

  /** Between packets: in the dispatch loop, inside the key exchange handler, or waiting in `kex_finish`. */
  datatype Phase = Ready | Exchanging | Finishing

  /** What a peer computed in one exchange. */
  datatype Exchange = Exchange(transcript: seq<byte>, hash: seq<byte>, secret: nat, keys: ModeKeys)

  /**
   * The Kex structure (done, initSent, my, peer, session) and the local variables of a handler that waits (priv),
   * with a record of everything sent and computed. `dead` marks a call of `fatal` or `packet_disconnect`;
   * `gaveUp` marks that the reason was a key generation without success, `confused` a packet of an unexpected type.
   */
  datatype Peer = Peer(
    server: bool, prop: Proposal, phase: Phase, done: bool, initSent: bool, my: seq<byte>, peer: seq<byte>,
    session: Option<seq<byte>>, priv: nat, epoch: nat,
    inits: seq<seq<byte>>, privs: seq<nat>, dhs: seq<Msg>, hist: seq<Exchange>, dead: bool, gaveUp: bool,
      confused: bool)

  /** `kex_send_kexinit` */
  function SendKexinit(p: Peer, cookie: Cookie): (Peer, seq<Msg>) {
    if p.initSent then (p, [])
    else
      var my := Kexinit(cookie, p.prop);
      (p.(done := false, my := my, initSent := true, inits := p.inits + [my]), [KexInit(my)])
  }

  /** `kex_finish`, after the peer's NEWKEYS arrived */
  function Finish(p: Peer): Peer {
    p.(phase := Ready, done := true, peer := [], initSent := false, epoch := p.epoch + 1)
  }

  function Chosen(w: World, server: bool, my: seq<byte>, peer: seq<byte>): Option<Conf> {
    Negotiate(w.suite, server, my, peer)
  }

  /** The group of the negotiated key exchange; None if it is not one of the fixed groups. */
  function GroupFor(w: World, server: bool, my: seq<byte>, peer: seq<byte>): Option<DhGroup> {
    var c := Chosen(w, server, my, peer);
    if c.None? then None else w.group(c.value.kexType)
  }

  /** H, the session identifier and the keys, computed by either role from its own values. */
  ghost function Compute(w: World, p: Peer, blob: seq<byte>, e: nat, f: nat, k: nat): Exchange
    requires w.Valid() && Chosen(w, p.server, p.my, p.peer).Some? && Chosen(w, p.server, p.my, p.peer).value.need > 0
  {
    ComputeWith(w, p, Chosen(w, p.server, p.my, p.peer).value, blob, e, f, k)
  }

  ghost function ComputeWith(w: World, p: Peer, conf: Conf, blob: seq<byte>, e: nat, f: nat, k: nat): Exchange
    requires w.Valid() && conf.need > 0
  {
    var (ci, si) := if p.server then (p.peer, p.my) else (p.my, p.peer);
    var t := Transcript(w, ci, si, blob, e, f, k);
    var h := w.digest.hash(t);
    var session := if p.session.Some? then p.session.value else h;
    Exchange(t, h, k, DeriveKeys(w.digest, p.server, conf, h, k, session).value)
  }

  /** The tail both `kexdh_client` and `kexdh_server` share: save the session id, install the keys, send NEWKEYS. */
  ghost function Install(p: Peer, x: Exchange): Peer {
    p.(session := if p.session.Some? then p.session else Some(x.hash), hist := p.hist + [x], phase := Finishing)
  }

  function Die(p: Peer): Peer { p.(dead := true) }

  function GiveUp(p: Peer): Peer { p.(dead := true, gaveUp := true) }

  /** `p'` is `p` after it died in the middle of a handler. */
  predicate DiedFrom(p: Peer, p': Peer) { p' == Die(p) || p' == GiveUp(p) }

  function Confuse(p: Peer): Peer { p.(dead := true, confused := true) }

  /** The number of bits that `dh_gen_key` gets, as a signed 32-bit integer. */
  function KeyBits(need: nat): int {
    var bits := (need * 8) % U32;
    if bits < U32 / 2 then bits else bits - U32
  }

  /** Whether `dh_gen_key` finds the group large enough. */
  predicate GroupSuits(g: DhGroup, need: nat) {
    0 <= KeyBits(need) <= INT_MAX / 2 && 2 * KeyBits(need) < NumBits(g.p)
  }

  /** For needs that the machine's integers hold, a group suits exactly if its modulus has over twice the bits. */
  lemma GroupSuitsIff(g: DhGroup, need: nat)
    requires need < 0x2000_0000
    ensures GroupSuits(g, need) <==> need < 0x800_0000 && g.p >= Pow2(16 * need)
  {
    KeyBitsOf(need);
    NumBitsIff(g.p, 16 * need);
  }

  lemma KeyBitsOf(need: nat)
    requires need < 0x2000_0000
    ensures 0 <= KeyBits(need) <= INT_MAX / 2 <==> need < 0x800_0000
    ensures need < 0x800_0000 ==> KeyBits(need) == 8 * need
  {
  }

  /**
   * `kex_input_kexinit` up to the point where the handler waits for a packet; `priv` is the private exponent that
   * `dh_gen_key` tries last.
   */
  ghost function InputKexinit(w: World, p: Peer, b: seq<byte>, cookie: Cookie, priv: nat): (r: (Peer, seq<Msg>))
    requires w.Valid()
    ensures p.session.Some? ==> r.0.session == p.session
  {
    var (p1, sent) := SendKexinit(p.(peer := p.peer + b), cookie);
    Enter(w, p, p1, sent, Chosen(w, p1.server, p1.my, p1.peer), GroupFor(w, p1.server, p1.my, p1.peer), priv)
  }

  /**
   * The handler of the chosen key exchange, up to its first wait; `p` is the peer that dies if it cannot be entered.
   */
  function Enter(w: World, p: Peer, p1: Peer, sent: seq<Msg>, conf: Option<Conf>, g: Option<DhGroup>, priv: nat)
    : (r: (Peer, seq<Msg>))
    requires g.Some? ==> g.value.p > 1
    ensures p.session == p1.session ==> r.0.session == p.session
  {
    if conf.None? || g.None? || !GroupSuits(g.value, conf.value.need) then (Die(p), [])
    else if !w.pubValid(g.value, ModExp(g.value.g, priv, g.value.p)) then (GiveUp(p), [])
    else
      var p2 := p1.(phase := Exchanging, priv := priv, privs := p1.privs + [priv]);
      if p1.server then (p2, sent)
      else
        var m := DhInit(ModExp(g.value.g, priv, g.value.p));
        (p2.(dhs := p2.dhs + [m]), sent + [m])
  }

  /** What a handler that reads a Diffie-Hellman message leaves alone. */
  predicate KeepsOffers(p: Peer, p': Peer) {
    p'.prop == p.prop && p'.inits == p.inits && p'.privs == p.privs && p'.gaveUp == p.gaveUp
  }

  /** `kexdh_client` after KEXDH_REPLY arrived; deriving keys dies if none is needed. */
  ghost function InputReply(w: World, p: Peer, blob: seq<byte>, f: nat, sig: seq<byte>): (r: (Peer, seq<Msg>))
    requires w.Valid()
    ensures (p.session.Some? ==> r.0.session == p.session) && KeepsOffers(p, r.0)
  {
    ReplyWith(w, p, Chosen(w, p.server, p.my, p.peer), GroupFor(w, p.server, p.my, p.peer), blob, f, sig)
  }

  ghost function ReplyWith(w: World, p: Peer, c: Option<Conf>, g: Option<DhGroup>, blob: seq<byte>, f: nat,
                           sig: seq<byte>)
    : (r: (Peer, seq<Msg>))
    requires w.Valid() && (g.Some? ==> g.value.p > 1)
    ensures (p.session.Some? ==> r.0.session == p.session) && KeepsOffers(p, r.0)
  {
    if c.None? || c.value.need == 0 || g.None? || !w.hostOk(blob, c.value.hostkeyType) || !w.pubValid(g.value, f)
    then (Die(p), [])
    else
      var e, k := ModExp(g.value.g, p.priv, g.value.p), ModExp(f, p.priv, g.value.p);
      var x := ComputeWith(w, p, c.value, blob, e, f, k);
      if !w.verify(blob, sig, x.hash) then (Die(p), []) else (Install(p, x), [NewKeys])
  }

  /** `kexdh_server` after KEXDH_INIT arrived; a reply that is queued when it dies is not flushed. */
  ghost function InputInit(w: World, p: Peer, e: nat): (r: (Peer, seq<Msg>))
    requires w.Valid()
    ensures (p.session.Some? ==> r.0.session == p.session) && KeepsOffers(p, r.0)
  {
    InitWith(w, p, Chosen(w, p.server, p.my, p.peer), GroupFor(w, p.server, p.my, p.peer), e)
  }

  ghost function InitWith(w: World, p: Peer, c: Option<Conf>, g: Option<DhGroup>, e: nat): (r: (Peer, seq<Msg>))
    requires w.Valid() && (g.Some? ==> g.value.p > 1)
    ensures (p.session.Some? ==> r.0.session == p.session) && KeepsOffers(p, r.0)
  {
    if c.None? || c.value.need == 0 || g.None? || !w.hostLoaded(c.value.hostkeyType) || !w.pubValid(g.value, e)
    then (Die(p), [])
    else
      var f, k := ModExp(g.value.g, p.priv, g.value.p), ModExp(e, p.priv, g.value.p);
      var x := ComputeWith(w, p, c.value, w.hostBlob, e, f, k);
      var m := DhReply(w.hostBlob, f, w.sign(x.hash));
      var p1 := Install(p, x);
      (p1.(dhs := p1.dhs + [m]), [m, NewKeys])
  }

  /** One packet: `dispatch_run` in the loop, `packet_read_expect` inside a handler. */
  ghost function Receive(w: World, p: Peer, m: Msg, cookie: Cookie, priv: nat): (r: (Peer, seq<Msg>))
    requires w.Valid()
    ensures p.session.Some? ==> r.0.session == p.session
  {
    match p.phase
    case Ready => if m.KexInit? then InputKexinit(w, p, m.b, cookie, priv) else (Confuse(p), [])
    case Exchanging =>
      if p.server then if m.DhInit? then InputInit(w, p, m.e) else (Confuse(p), [])
      else if m.DhReply? then InputReply(w, p, m.blob, m.f, m.sig) else (Confuse(p), [])
    case Finishing => if m.NewKeys? then (Finish(p), []) else (Confuse(p), [])
  }

  // ----- Two peers -----

  datatype Sys = Sys(c: Peer, s: Peer, cs: seq<Msg>, sc: seq<Msg>)

  /**
   * Either side may ask for a new exchange at any time; packets arrive in order; the coins of a step are part of it.
   */
  datatype Event =
    | RekeyClient(cookie: Cookie)
    | RekeyServer(cookie: Cookie)
    | ToClient(cookie: Cookie, priv: nat)
    | ToServer(cookie: Cookie, priv: nat)

  function Rekey(p: Peer, cookie: Cookie): (Peer, seq<Msg>) {
    if p.dead || p.phase != Ready then (p, []) else SendKexinit(p, cookie)
  }

  ghost function Step(w: World, y: Sys, ev: Event): Sys
    requires w.Valid()
  {
    match ev
    case RekeyClient(cookie) =>
      var (c', ms) := Rekey(y.c, cookie);
      y.(c := c', cs := y.cs + ms)
    case RekeyServer(cookie) =>
      var (s', ms) := Rekey(y.s, cookie);
      y.(s := s', sc := y.sc + ms)
    case ToClient(cookie, priv) =>
      if y.c.dead || y.sc == [] then y
      else
        var (c', ms) := Receive(w, y.c, y.sc[0], cookie, priv);
        if c'.dead then y.(c := c') else y.(c := c', sc := y.sc[1..], cs := y.cs + ms)
    case ToServer(cookie, priv) =>
      if y.s.dead || y.cs == [] then y
      else
        var (s', ms) := Receive(w, y.s, y.cs[0], cookie, priv);
        if s'.dead then y.(s := s') else y.(s := s', cs := y.cs[1..], sc := y.sc + ms)
  }

  ghost function Run(w: World, y: Sys, evs: seq<Event>): Sys
    requires w.Valid()
    decreases |evs|
  {
    if evs == [] then y else Step(w, Run(w, y, evs[..|evs| - 1]), evs[|evs| - 1])
  }

  /** `kex_setup`: the first KEXINIT is sent at once. */
  function Setup(server: bool, prop: Proposal, cookie: Cookie): Peer {
    var my := Kexinit(cookie, prop);
    Peer(server, prop, Ready, false, true, my, [], None, 0, 0, [my], [], [], [], false, false, false)
  }

  function Start(cprop: Proposal, sprop: Proposal, ccookie: Cookie, scookie: Cookie): Sys {
    var c, s := Setup(false, cprop, ccookie), Setup(true, sprop, scookie);
    Sys(c, s, [KexInit(c.my)], [KexInit(s.my)])
  }
}

/** The Kex structure as a mutable object. */
module KexObject {
  import opened Bytes
  import opened Negotiation
  import opened Options
  import opened KexRuns

  /** The cookie filled from 32-bit random words, low byte first. */
  function CookieFrom(rnd: seq<uint32>): (c: seq<byte>)
    requires |rnd| == 4
    ensures |c| == 16
  {
    WordBytes(rnd[0]) + WordBytes(rnd[1]) + WordBytes(rnd[2]) + WordBytes(rnd[3])
  }

  function WordBytes(r: uint32): (c: seq<byte>)
    ensures |c| == 4
  {
    [r % 0x100, r / 0x100 % 0x100, r / 0x1_0000 % 0x100, r / 0x100_0000 % 0x100]
  }

  class Kex {
    const server: bool
    const prop: Proposal
    var done: bool
    var initSent: bool
    var my: seq<byte>
    var peer: seq<byte>
    var session: Option<seq<byte>>

    /** The object holds the fields of peer `p`. */
    ghost predicate Holds(p: Peer)
      reads this
    {
      && p.server == server && p.prop == prop && p.done == done && p.initSent == initSent
      && p.my == my && p.peer == peer && p.session == session
    }

    /** The proposal in `my` is the one set up; only its cookie changes. */
    ghost predicate Valid()
      reads this
    {
      exists cookie: Cookie :: my == Kexinit(cookie, prop)
    }

    constructor (server: bool, prop: Proposal)
      ensures Valid() && !initSent && !done && peer == [] && session == None && this.server == server
              && this.prop == prop
    {
      var zeros: Cookie := seq(KEX_COOKIE_LEN, _ => 0);
      this.server, this.prop := server, prop;
      done, initSent := false, false;
      my, peer := Kexinit(zeros, prop), [];
      session := None;
    }

    /** `kex_send_kexinit`: overwrites the cookie in place and sends the proposal, unless one is outstanding. */
    method SendKexinit(ghost p: Peer, rnd: seq<uint32>) returns (sent: seq<Msg>)
      requires Valid() && Holds(p) && |rnd| == 4
      modifies this`done, this`initSent, this`my
      ensures Valid() && Holds(KexRuns.SendKexinit(p, CookieFrom(rnd)).0)
      ensures sent == KexRuns.SendKexinit(p, CookieFrom(rnd)).1
    {
      if initSent {
        return [];
      }
      done := false;
      ghost var cookie: Cookie :| my == Kexinit(cookie, prop);
      NewCookie(cookie, CookieFrom(rnd), prop);
      WriteCookie(rnd);
      assert my == my[..KEX_COOKIE_LEN] + my[KEX_COOKIE_LEN..];
      sent := [KexInit(my)];
      initSent := true;
    }

    /** Fills the first bytes of the proposal with fresh random ones and leaves the rest alone. */
    method WriteCookie(rnd: seq<uint32>)
      requires |my| >= KEX_COOKIE_LEN && |rnd| == 4
      modifies this`my
      ensures |my| == |old(my)| && my[..KEX_COOKIE_LEN] == CookieFrom(rnd)
              && my[KEX_COOKIE_LEN..] == old(my)[KEX_COOKIE_LEN..]
    {
      var word: nat, i := 0, 0;
      while i < KEX_COOKIE_LEN
        invariant 0 <= i <= KEX_COOKIE_LEN && |my| == |old(my)| && my[KEX_COOKIE_LEN..] == old(my)[KEX_COOKIE_LEN..]
        invariant my[..i] == CookieFrom(rnd)[..i]
        invariant i % 4 != 0 ==> LeftOf(rnd, i, word)
      {
        if i % 4 == 0 {
          word := rnd[i / 4];
        }
        CookieByte(rnd, i, word);
        ghost var before := my;
        my := my[i := word % 0x100];
        assert my[..i + 1] == before[..i] + [word % 0x100];
        word := word / 0x100;
        i := i + 1;
      }
    }

    /** The state changes of `kex_finish` after NEWKEYS was received. */
    method Finish(ghost p: Peer)
      requires Valid() && Holds(p)
      modifies this`done, this`peer, this`initSent
      ensures Valid() && Holds(KexRuns.Finish(p))
    {
      done := true;
      peer := [];
      initSent := false;
    }
  }

  /** What is left of a random word when its first bytes are used. */
  ghost predicate LeftOf(rnd: seq<uint32>, i: nat, word: nat)
    requires |rnd| == 4
  {
    i < 16 && word == rnd[i / 4] / (if i % 4 == 0 then 1 else if i % 4 == 1 then 0x100
                                    else if i % 4 == 2 then 0x1_0000 else 0x100_0000)
  }

  lemma CookieByte(rnd: seq<uint32>, i: nat, word: nat)
    requires |rnd| == 4 && LeftOf(rnd, i, word)
    ensures word % 0x100 == CookieFrom(rnd)[i]
    ensures (i + 1) % 4 != 0 ==> LeftOf(rnd, i + 1, word / 0x100)
  {
    assert CookieFrom(rnd)[i] == WordBytes(rnd[i / 4])[i % 4];
    if (i + 1) % 4 != 0 {
      NextInWord(i);
      ShiftMore(rnd[i / 4], i % 4);
    }
  }

  lemma NextInWord(i: nat)
    requires (i + 1) % 4 != 0
    ensures (i + 1) / 4 == i / 4 && (i + 1) % 4 == i % 4 + 1
  {
  }

  lemma ShiftMore(w: nat, k: nat)
    ensures k == 0 ==> w / 1 / 0x100 == w / 0x100
    ensures k == 1 ==> w / 0x100 / 0x100 == w / 0x1_0000
    ensures k == 2 ==> w / 0x1_0000 / 0x100 == w / 0x100_0000
  {
  }
}
