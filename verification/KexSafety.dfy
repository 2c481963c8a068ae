/** Invariants of two peers over every run of initial and repeated key exchanges. */
module KexSafety {
  import opened Arith
  import opened Bytes
  import opened Wire
  import opened ModGroup
  import opened Negotiation
  import opened Options
  import opened KeyDerivation
  import opened KexRuns

  // ----- Counting messages: every exchange is KEXINIT, one Diffie-Hellman message, NEWKEYS -----

  function Sent(p: Peer): nat {
    3 * p.epoch + match p.phase
                  case Ready => if p.initSent then 1 else 0
                  case Exchanging => if p.server then 1 else 2
                  case Finishing => 3
  }

  function Consumed(p: Peer): nat {
    3 * p.epoch + match p.phase
                  case Ready => 0
                  case Exchanging => 1
                  case Finishing => 2
  }

  /** Between handlers: the flags, the buffers and the lengths of the records agree. */
  predicate PeerOk(p: Peer) {
    && (p.done <==> p.phase == Ready && !p.initSent)
    && (p.phase != Ready ==> p.initSent)
    && (p.phase == Ready ==> p.peer == [])
    && |p.inits| == p.epoch + (if p.initSent then 1 else 0)
    && (p.initSent ==> p.my == p.inits[p.epoch])
    && |p.privs| == p.epoch + (if p.phase != Ready then 1 else 0)
    && (p.phase != Ready ==> p.priv == p.privs[p.epoch])
    && |p.dhs| == p.epoch + (if p.phase == Finishing || (p.phase == Exchanging && !p.server) then 1 else 0)
    && |p.hist| == p.epoch + (if p.phase == Finishing then 1 else 0)
    && (p.session == if p.hist == [] then None else Some(p.hist[0].hash))
    && !p.confused
  }

  /** Message number `i` of a peer. */
  function Scheduled(p: Peer, i: nat): Msg
    requires PeerOk(p) && i < Sent(p)
  {
    var n := i / 3;
    if i % 3 == 0 then KexInit(p.inits[n]) else if i % 3 == 1 then p.dhs[n] else NewKeys
  }

  /** In flight is exactly what `p` sent and `q` has not read. */
  ghost predicate QueueOk(p: Peer, q: Peer, queue: seq<Msg>)
    requires PeerOk(p)
  {
    && Consumed(q) + |queue| == Sent(p)
    && (forall k :: 0 <= k < |queue| ==> queue[k] == Scheduled(p, Consumed(q) + k))
    && (q.phase != Ready ==> q.epoch < |p.inits| && q.peer == p.inits[q.epoch])
  }

  // ----- What exchange number n must contain -----

  /** The group both sides use in an exchange with these KEXINITs. */
  function SharedGroup(w: World, ci: seq<byte>, si: seq<byte>): Option<DhGroup> {
    GroupFor(w, false, ci, si)
  }

  lemma GroupsAgree(w: World, ci: seq<byte>, si: seq<byte>)
    ensures GroupFor(w, true, si, ci) == SharedGroup(w, ci, si)
    ensures Chosen(w, true, si, ci).Some? <==> Chosen(w, false, ci, si).Some?
    ensures Chosen(w, false, ci, si).Some? ==> Chosen(w, true, si, ci).value == Mirror(Chosen(w, false, ci, si).value)
  {
    BytesAgree(w.suite, ci, si);
  }

  ghost function Pub(g: DhGroup, x: nat): nat
    requires g.p > 1
  {
    ModExp(g.g, x, g.p)
  }

  ghost function Secret(g: DhGroup, x: nat, y: nat): nat
    requires g.p > 1
  {
    ModExp(Pub(g, x), y, g.p)
  }

  /** Both sides compute the same secret. */
  lemma SecretsAgree(g: DhGroup, x: nat, y: nat)
    requires g.p > 1
    ensures Secret(g, x, y) == Secret(g, y, x)
  {
    SecretIsPower(g, x, y);
    SecretIsPower(g, y, x);
    assert x * y == y * x;
  }

  lemma SecretIsPower(g: DhGroup, x: nat, y: nat)
    requires g.p > 1
    ensures x * y >= 0 && Secret(g, x, y) == ModExp(g.g, x * y, g.p)
  {
    PowPow(g.g, x, y);
    ModMod(Pow(g.g, x), g.p);
    PowCongruent(Pub(g, x), Pow(g.g, x), y, g.p);
  }

  ghost function ExpectedTranscript(w: World, g: DhGroup, ci: seq<byte>, si: seq<byte>, x: nat, y: nat): seq<byte>
    requires g.p > 1
  {
    Transcript(w, ci, si, w.hostBlob, Pub(g, x), Pub(g, y), Secret(g, y, x))
  }

  ghost predicate ExchangeOk(w: World, server: bool, session: seq<byte>, h: Exchange, ci: seq<byte>, si: seq<byte>,
                             x: nat, y: nat)
    requires w.Valid()
  {
    var g, conf := SharedGroup(w, ci, si), if server then Chosen(w, true, si, ci) else Chosen(w, false, ci, si);
    && g.Some? && conf.Some?
    && h.transcript == ExpectedTranscript(w, g.value, ci, si, x, y)
    && h.hash == w.digest.hash(h.transcript)
    && h.secret == Secret(g.value, y, x)
    && DeriveKeys(w.digest, server, conf.value, h.hash, h.secret, session) == Some(h.keys)
  }

  ghost predicate ClientDhOk(w: World, m: Msg, ci: seq<byte>, si: seq<byte>, x: nat)
    requires w.Valid()
  {
    var g := SharedGroup(w, ci, si);
    g.Some? && m == DhInit(Pub(g.value, x))
  }

  ghost predicate ServerDhOk(w: World, m: Msg, ci: seq<byte>, si: seq<byte>, x: nat, y: nat)
    requires w.Valid()
  {
    var g := SharedGroup(w, ci, si);
    && g.Some?
    && m == DhReply(w.hostBlob, Pub(g.value, y), w.sign(w.digest.hash(ExpectedTranscript(w, g.value, ci, si, x, y))))
  }

  ghost predicate ClientSentOk(w: World, c: Peer, s: Peer, n: nat)
    requires w.Valid() && n < |c.dhs|
  {
    && n < |c.inits| && n < |s.inits| && n < |c.privs|
    && ClientDhOk(w, c.dhs[n], c.inits[n], s.inits[n], c.privs[n])
  }

  ghost predicate ServerSentOk(w: World, c: Peer, s: Peer, n: nat)
    requires w.Valid() && n < |s.dhs|
  {
    && n < |c.inits| && n < |s.inits| && n < |c.privs| && n < |s.privs|
    && ServerDhOk(w, s.dhs[n], c.inits[n], s.inits[n], c.privs[n], s.privs[n])
  }

  /** Every Diffie-Hellman message sent belongs to the exchange of its number. */
  ghost predicate DhsOk(w: World, c: Peer, s: Peer)
    requires w.Valid()
  {
    && (forall n: nat :: n < |c.dhs| ==> ClientSentOk(w, c, s, n))
    && (forall n: nat :: n < |s.dhs| ==> ServerSentOk(w, c, s, n))
  }

  ghost predicate EntryOk(w: World, p: Peer, c: Peer, s: Peer, n: nat)
    requires w.Valid() && n < |p.hist|
  {
    && n < |c.inits| && n < |s.inits| && n < |c.privs| && n < |s.privs|
    && ExchangeOk(w, p.server, p.hist[0].hash, p.hist[n], c.inits[n], s.inits[n], c.privs[n], s.privs[n])
  }

  /** Every exchange one side computed is the exchange of its number. */
  ghost predicate HistOk(w: World, p: Peer, c: Peer, s: Peer)
    requires w.Valid()
  {
    forall n: nat :: n < |p.hist| ==> EntryOk(w, p, c, s, n)
  }

  ghost predicate Inv(w: World, y: Sys)
    requires w.Valid()
  {
    && !y.c.server && y.s.server
    && PeerOk(y.c) && PeerOk(y.s)
    && QueueOk(y.c, y.s, y.cs) && QueueOk(y.s, y.c, y.sc)
    && DhsOk(w, y.c, y.s)
    && HistOk(w, y.c, y.c, y.s) && HistOk(w, y.s, y.c, y.s)
  }

  // ----- The queues -----

  /** `p'` is `p` with longer records. */
  predicate Extends(p: Peer, p': Peer) {
    p.inits <= p'.inits && p.dhs <= p'.dhs && p.privs <= p'.privs
  }

  lemma ScheduleStable(p: Peer, p': Peer, i: nat)
    requires PeerOk(p) && PeerOk(p') && Extends(p, p') && i < Sent(p) <= Sent(p')
    ensures Scheduled(p', i) == Scheduled(p, i)
  {
  }

  /** Sending: the new messages are the next scheduled ones. */
  lemma QueueGrows(p: Peer, p': Peer, q: Peer, queue: seq<Msg>, ms: seq<Msg>)
    requires PeerOk(p) && PeerOk(p') && Extends(p, p') && QueueOk(p, q, queue)
    requires Sent(p') == Sent(p) + |ms|
    requires forall k :: 0 <= k < |ms| ==> ms[k] == Scheduled(p', Sent(p) + k)
    ensures QueueOk(p', q, queue + ms)
  {
    forall k | 0 <= k < |queue + ms|
      ensures (queue + ms)[k] == Scheduled(p', Consumed(q) + k)
    {
      if k < |queue| {
        ScheduleStable(p, p', Consumed(q) + k);
      } else {
        assert (queue + ms)[k] == ms[k - |queue|];
      }
    }
  }

  /** Reading: the rest of the queue is still what was not read. */
  lemma QueueShrinks(p: Peer, q: Peer, q': Peer, queue: seq<Msg>)
    requires PeerOk(p) && queue != [] && QueueOk(p, q, queue) && Consumed(q') == Consumed(q) + 1
    requires q'.phase != Ready ==> q'.epoch < |p.inits| && q'.peer == p.inits[q'.epoch]
    ensures QueueOk(p, q', queue[1..])
  {
    forall k | 0 <= k < |queue| - 1
      ensures queue[1..][k] == Scheduled(p, Consumed(q') + k)
    {
      assert queue[1..][k] == queue[k + 1];
    }
  }

  /** The head of the queue is of the kind the reader waits for, and belongs to the reader's exchange. */
  lemma HeadIsExpected(p: Peer, q: Peer, queue: seq<Msg>)
    requires PeerOk(p) && queue != [] && QueueOk(p, q, queue)
    ensures q.phase == Ready ==> q.epoch < |p.inits| && queue[0] == KexInit(p.inits[q.epoch])
    ensures q.phase == Exchanging ==> q.epoch < |p.dhs| && queue[0] == p.dhs[q.epoch]
    ensures q.phase == Finishing ==> queue[0] == NewKeys
  {
    assert queue[0] == Scheduled(p, Consumed(q));
  }

  // ----- The records -----

  lemma SentStable(w: World, c: Peer, s: Peer, c': Peer, s': Peer, n: nat)
    requires w.Valid() && Extends(c, c') && Extends(s, s')
    ensures n < |c.dhs| && ClientSentOk(w, c, s, n) ==> ClientSentOk(w, c', s', n)
    ensures n < |s.dhs| && ServerSentOk(w, c, s, n) ==> ServerSentOk(w, c', s', n)
  {
    assert n < |c.dhs| ==> c'.dhs[n] == c.dhs[n];
    assert n < |s.dhs| ==> s'.dhs[n] == s.dhs[n];
    assert n < |c.inits| ==> c'.inits[n] == c.inits[n];
    assert n < |s.inits| ==> s'.inits[n] == s.inits[n];
    assert n < |c.privs| ==> c'.privs[n] == c.privs[n];
    assert n < |s.privs| ==> s'.privs[n] == s.privs[n];
  }

  lemma EntryStable(w: World, p: Peer, c: Peer, s: Peer, p': Peer, c': Peer, s': Peer, n: nat)
    requires w.Valid() && n < |p.hist| && EntryOk(w, p, c, s, n) && Extends(c, c') && Extends(s, s')
    requires p.hist <= p'.hist && p'.server == p.server
    ensures EntryOk(w, p', c', s', n)
  {
    assert p'.hist[n] == p.hist[n] && p'.hist[0] == p.hist[0];
    assert c'.inits[n] == c.inits[n] && s'.inits[n] == s.inits[n] && c'.privs[n] == c.privs[n]
           && s'.privs[n] == s.privs[n];
  }

  lemma HistSame(w: World, p: Peer, c: Peer, s: Peer, p': Peer, c': Peer, s': Peer)
    requires w.Valid() && HistOk(w, p, c, s) && Extends(c, c') && Extends(s, s') && p'.hist == p.hist
             && p'.server == p.server
    ensures HistOk(w, p', c', s')
  {
    forall n: nat | n < |p'.hist|
      ensures EntryOk(w, p', c', s', n)
    {
      EntryStable(w, p, c, s, p', c', s', n);
    }
  }

  lemma HistOneMore(w: World, p: Peer, c: Peer, s: Peer, p': Peer, c': Peer, s': Peer, x: Exchange)
    requires w.Valid() && HistOk(w, p, c, s) && Extends(c, c') && Extends(s, s') && p'.hist == p.hist + [x]
             && p'.server == p.server
    requires EntryOk(w, p', c', s', |p.hist|)
    ensures HistOk(w, p', c', s')
  {
    forall n: nat | n < |p'.hist|
      ensures EntryOk(w, p', c', s', n)
    {
      if n < |p.hist| { EntryStable(w, p, c, s, p', c', s', n); } else { assert n == |p.hist|; }
    }
  }

  /** The Diffie-Hellman messages of the client stay right as the records grow. */
  lemma ClientSentSame(w: World, c: Peer, s: Peer, c': Peer, s': Peer)
    requires w.Valid() && DhsOk(w, c, s) && Extends(c, c') && Extends(s, s')
    requires c'.dhs == c.dhs || (|c'.dhs| == |c.dhs| + 1 && ClientSentOk(w, c', s', |c.dhs|))
    ensures forall n: nat :: n < |c'.dhs| ==> ClientSentOk(w, c', s', n)
  {
    forall n: nat | n < |c'.dhs|
      ensures ClientSentOk(w, c', s', n)
    {
      if n < |c.dhs| { SentStable(w, c, s, c', s', n); } else { assert n == |c.dhs|; }
    }
  }

  lemma ServerSentSame(w: World, c: Peer, s: Peer, c': Peer, s': Peer)
    requires w.Valid() && DhsOk(w, c, s) && Extends(c, c') && Extends(s, s')
    requires s'.dhs == s.dhs || (|s'.dhs| == |s.dhs| + 1 && ServerSentOk(w, c', s', |s.dhs|))
    ensures forall n: nat :: n < |s'.dhs| ==> ServerSentOk(w, c', s', n)
  {
    forall n: nat | n < |s'.dhs|
      ensures ServerSentOk(w, c', s', n)
    {
      if n < |s.dhs| { SentStable(w, c, s, c', s', n); } else { assert n == |s.dhs|; }
    }
  }

  // ----- Steps -----

  /** Everything but the queues and the step that changes only the inits of one side. */
  ghost predicate Records(w: World, c: Peer, s: Peer)
    requires w.Valid()
  {
    DhsOk(w, c, s) && HistOk(w, c, c, s) && HistOk(w, s, c, s)
  }

  lemma RecordsStable(w: World, c: Peer, s: Peer, c': Peer, s': Peer)
    requires w.Valid() && Records(w, c, s) && Extends(c, c') && Extends(s, s')
    requires c'.dhs == c.dhs && s'.dhs == s.dhs && c'.hist == c.hist && s'.hist == s.hist
    requires c'.server == c.server && s'.server == s.server
    ensures Records(w, c', s')
  {
    ClientSentSame(w, c, s, c', s');
    ServerSentSame(w, c, s, c', s');
    HistSame(w, c, c, s, c', c', s');
    HistSame(w, s, c, s, s', c', s');
  }

  /** A KEXINIT is sent only when none is outstanding, and then it is the next scheduled message. */
  lemma SendKexinitOk(p: Peer, q: Peer, queue: seq<Msg>, cookie: Cookie)
    requires PeerOk(p) && p.phase == Ready && QueueOk(p, q, queue)
    ensures var (p', ms) := SendKexinit(p, cookie);
            && PeerOk(p') && Extends(p, p') && p'.initSent && p'.phase == Ready && p'.epoch == p.epoch
            && p'.dhs == p.dhs && p'.hist == p.hist && p'.privs == p.privs && p'.server == p.server && p'.peer == p.peer
            && QueueOk(p', q, queue + ms)
  {
    var (p', ms) := SendKexinit(p, cookie);
    if p.initSent {
      assert queue + [] == queue;
    } else {
      NextIsKexinit(p, p');
      QueueGrows(p, p', q, queue, ms);
    }
  }

  lemma NextIsKexinit(p: Peer, p': Peer)
    requires PeerOk(p) && p.phase == Ready && !p.initSent
    requires p' == p.(done := false, my := p'.my, initSent := true, inits := p.inits + [p'.my])
    ensures PeerOk(p') && Extends(p, p') && Sent(p') == Sent(p) + 1 && Scheduled(p', Sent(p)) == KexInit(p'.my)
  {
    Thirds(p.epoch);
  }

  lemma SameReader(p: Peer, q: Peer, q': Peer, queue: seq<Msg>)
    requires PeerOk(p) && QueueOk(p, q, queue) && Consumed(q') == Consumed(q) && q'.phase == q.phase
             && q'.epoch == q.epoch
    requires q'.peer == q.peer
    ensures QueueOk(p, q', queue)
  {
  }

  lemma RekeyKeeps(w: World, y: Sys, ev: Event)
    requires w.Valid() && Inv(w, y) && (ev.RekeyClient? || ev.RekeyServer?)
    ensures Inv(w, Step(w, y, ev))
  {
    if ev.RekeyClient? && !y.c.dead && y.c.phase == Ready {
      var (c', ms) := SendKexinit(y.c, ev.cookie);
      SendKexinitOk(y.c, y.s, y.cs, ev.cookie);
      SameReader(y.s, y.c, c', y.sc);
      RecordsStable(w, y.c, y.s, c', y.s);
    } else if ev.RekeyServer? && !y.s.dead && y.s.phase == Ready {
      var (s', ms) := SendKexinit(y.s, ev.cookie);
      SendKexinitOk(y.s, y.c, y.sc, ev.cookie);
      SameReader(y.c, y.s, s', y.cs);
      RecordsStable(w, y.c, y.s, y.c, s');
    } else {
      assert y.cs + [] == y.cs && y.sc + [] == y.sc;
    }
  }

  // ----- Receiving KEXINIT -----

  /** What entering the handler does to a peer, apart from the client's first Diffie-Hellman message. */
  lemma EnterOk(p: Peer, q: Peer, pq: seq<Msg>, qp: seq<Msg>, cookie: Cookie, priv: nat)
    requires PeerOk(p) && PeerOk(q) && QueueOk(p, q, pq) && QueueOk(q, p, qp) && qp != [] && p.phase == Ready
    ensures var b := q.inits[p.epoch]; p.epoch < |q.inits| && qp[0] == KexInit(b)
    ensures var b := q.inits[p.epoch];
            var (p1, sent) := SendKexinit(p.(peer := p.peer + b), cookie);
            && p1.my == p1.inits[p.epoch] && p1.peer == b && p1.epoch == p.epoch && p1.initSent && Extends(p, p1)
            && p1.dhs == p.dhs && p1.hist == p.hist && p1.privs == p.privs && p1.server == p.server
            && |p1.inits| == p.epoch + 1 && p1.session == p.session && !p1.confused
            && QueueOk(p1.(peer := []), q, pq + sent)
  {
    HeadIsExpected(q, p, qp);
    var b := q.inits[p.epoch];
    SendKexinitOk(p, q, pq, cookie);
    assert [] + b == b;
    var (p1, sent) := SendKexinit(p.(peer := p.peer + b), cookie);
    assert (p1.(peer := []), sent) == SendKexinit(p, cookie);
  }

  /** A handler was entered: the KEXINIT is read, and `extra` follows what was sent so far. */
  lemma EnteredQueues(p: Peer, q: Peer, p1: Peer, p2: Peer, pq: seq<Msg>, qp: seq<Msg>, extra: seq<Msg>)
    requires PeerOk(p) && PeerOk(q) && PeerOk(p1) && PeerOk(p2) && QueueOk(p1, q, pq) && QueueOk(q, p, qp)
    requires qp != [] && p.phase == Ready && p1.phase == Ready && p1.initSent && p2.phase == Exchanging
    requires p1.epoch == p2.epoch == p.epoch && Extends(p1, p2)
    requires if p2.server then extra == [] else |extra| == 1 && p2.dhs == p1.dhs + extra
    requires p2.epoch < |q.inits| && p2.peer == q.inits[p2.epoch]
    ensures QueueOk(p2, q, pq + extra) && QueueOk(q, p2, qp[1..])
  {
    EnteredSends(p1, p2, q, pq, extra);
    QueueShrinks(q, p, p2, qp);
  }

  lemma EnteredSends(p1: Peer, p2: Peer, q: Peer, pq: seq<Msg>, extra: seq<Msg>)
    requires PeerOk(p1) && PeerOk(p2) && QueueOk(p1, q, pq)
    requires p1.phase == Ready && p1.initSent && p2.phase == Exchanging && p1.epoch == p2.epoch && Extends(p1, p2)
    requires if p2.server then extra == [] else |extra| == 1 && p2.dhs == p1.dhs + extra
    ensures QueueOk(p2, q, pq + extra)
  {
    if p2.server {
      QueueGrows(p1, p2, q, pq, []);
    } else {
      DhSlot(p2, p2.epoch);
      QueueOneMore(p1, p2, q, pq, extra[0]);
      assert extra == [extra[0]];
    }
  }

  lemma DhSlot(p: Peer, n: nat)
    requires PeerOk(p) && n < |p.dhs| && 3 * n + 1 < Sent(p)
    ensures Scheduled(p, 3 * n + 1) == p.dhs[n]
  {
    Thirds(n);
  }

  lemma QueueOneMore(p: Peer, p': Peer, q: Peer, queue: seq<Msg>, m: Msg)
    requires PeerOk(p) && PeerOk(p') && Extends(p, p') && QueueOk(p, q, queue)
    requires Sent(p') == Sent(p) + 1 && m == Scheduled(p', Sent(p))
    ensures QueueOk(p', q, queue + [m])
  {
    QueueGrows(p, p', q, queue, [m]);
  }

  lemma Thirds(n: nat)
    ensures (3 * n) / 3 == n && (3 * n + 1) / 3 == n && (3 * n + 2) / 3 == n
    ensures (3 * n) % 3 == 0 && (3 * n + 1) % 3 == 1 && (3 * n + 2) % 3 == 2
  {
  }

  /** The peer after `kex_input_kexinit`, before the role-specific handler sends anything. */
  function Entered(p: Peer, b: seq<byte>, cookie: Cookie, priv: nat): Peer {
    var p1 := SendKexinit(p.(peer := p.peer + b), cookie).0;
    p1.(phase := Exchanging, priv := priv, privs := p1.privs + [priv])
  }

  /** What `kex_input_kexinit` returns: the peer died, or it entered the handler of its role. */
  lemma EntersOrDies(w: World, p: Peer, b: seq<byte>, cookie: Cookie, priv: nat)
    requires w.Valid() && !p.dead
    ensures var r := InputKexinit(w, p, b, cookie, priv);
            var (p1, sent) := SendKexinit(p.(peer := p.peer + b), cookie);
            var g := GroupFor(w, p.server, p1.my, p1.peer);
            DiedFrom(p, r.0) ||
            (&& g.Some?
             && var m := DhInit(ModExp(g.value.g, priv, g.value.p));
                var e := Entered(p, b, cookie, priv);
                r == if p.server then (e, sent) else (e.(dhs := e.dhs + [m]), sent + [m]))
  {
  }

  /** The server has sent its KEXINIT and waits for KEXDH_INIT. */
  lemma ServerEnters(w: World, y: Sys, cookie: Cookie, priv: nat)
    requires w.Valid() && Inv(w, y) && y.s.phase == Ready && y.cs != [] && !y.s.dead
    ensures y.cs[0].KexInit?
    ensures var (s', ms) := InputKexinit(w, y.s, y.cs[0].b, cookie, priv);
            DiedFrom(y.s, s') || Inv(w, y.(s := s', cs := y.cs[1..], sc := y.sc + ms))
  {
    EnterOk(y.s, y.c, y.sc, y.cs, cookie, priv);
    EntersOrDies(w, y.s, y.cs[0].b, cookie, priv);
    ServerEntered(w, y, cookie, priv);
  }

  lemma ServerEntered(w: World, y: Sys, cookie: Cookie, priv: nat)
    requires w.Valid() && Inv(w, y) && y.s.phase == Ready && y.cs != [] && y.s.epoch < |y.c.inits|
    ensures var b := y.c.inits[y.s.epoch];
            var sent := SendKexinit(y.s.(peer := y.s.peer + b), cookie).1;
            Inv(w, y.(s := Entered(y.s, b, cookie, priv), cs := y.cs[1..], sc := y.sc + sent))
  {
    EnterOk(y.s, y.c, y.sc, y.cs, cookie, priv);
    var b := y.c.inits[y.s.epoch];
    var (s1, sent) := SendKexinit(y.s.(peer := y.s.peer + b), cookie);
    var s2 := Entered(y.s, b, cookie, priv);
    assert PeerOk(s2);
    EnteredQueues(y.s, y.c, s1.(peer := []), s2, y.sc + sent, y.cs, []);
    assert y.sc + sent + [] == y.sc + sent;
    RecordsStable(w, y.c, y.s, y.c, s2);
  }

  /** The client has sent its KEXINIT and KEXDH_INIT and waits for KEXDH_REPLY. */
  lemma ClientEnters(w: World, y: Sys, cookie: Cookie, priv: nat)
    requires w.Valid() && Inv(w, y) && y.c.phase == Ready && y.sc != [] && !y.c.dead
    ensures y.sc[0].KexInit?
    ensures var (c', ms) := InputKexinit(w, y.c, y.sc[0].b, cookie, priv);
            DiedFrom(y.c, c') || Inv(w, y.(c := c', sc := y.sc[1..], cs := y.cs + ms))
  {
    EnterOk(y.c, y.s, y.cs, y.sc, cookie, priv);
    EntersOrDies(w, y.c, y.sc[0].b, cookie, priv);
    var b := y.sc[0].b;
    var c1 := SendKexinit(y.c.(peer := y.c.peer + b), cookie).0;
    var g := GroupFor(w, false, c1.my, c1.peer);
    if g.Some? { ClientSends(w, y, cookie, priv, DhInit(ModExp(g.value.g, priv, g.value.p))); }
  }

  lemma ClientSends(w: World, y: Sys, cookie: Cookie, priv: nat, m: Msg)
    requires w.Valid() && Inv(w, y) && y.c.phase == Ready && y.sc != [] && y.c.epoch < |y.s.inits|
    requires var e := Entered(y.c, y.s.inits[y.c.epoch], cookie, priv);
             var g := GroupFor(w, false, e.my, e.peer);
             g.Some? && m == DhInit(ModExp(g.value.g, priv, g.value.p))
    ensures var b := y.s.inits[y.c.epoch];
            var sent := SendKexinit(y.c.(peer := y.c.peer + b), cookie).1;
            var c2 := Entered(y.c, b, cookie, priv).(dhs := y.c.dhs + [m]);
            Inv(w, y.(c := c2, sc := y.sc[1..], cs := y.cs + (sent + [m])))
  {
    EnterOk(y.c, y.s, y.cs, y.sc, cookie, priv);
    var b := y.s.inits[y.c.epoch];
    var (c1, sent) := SendKexinit(y.c.(peer := y.c.peer + b), cookie);
    var c2 := Entered(y.c, b, cookie, priv).(dhs := y.c.dhs + [m]);
    ClientEntered(w, y.c, y.s, b, cookie, priv, m);
    EnteredQueues(y.c, y.s, c1.(peer := []), c2, y.cs + sent, y.sc, [m]);
    Reassociate(y.cs, sent, [m]);
    ClientEntersRecords(w, y, c2, m);
  }

  lemma Reassociate(a: seq<Msg>, b: seq<Msg>, c: seq<Msg>)
    ensures a + b + c == a + (b + c)
  {
  }

  lemma ClientEntered(w: World, c: Peer, s: Peer, b: seq<byte>, cookie: Cookie, priv: nat, m: Msg)
    requires w.Valid() && PeerOk(c) && c.phase == Ready && !c.server && c.epoch < |s.inits| && b == s.inits[c.epoch]
    requires var e := Entered(c, b, cookie, priv);
             var g := GroupFor(w, false, e.my, e.peer);
             g.Some? && m == DhInit(ModExp(g.value.g, priv, g.value.p))
    ensures var c2 := Entered(c, b, cookie, priv).(dhs := c.dhs + [m]);
            PeerOk(c2) && Extends(c, c2) && ClientSentOk(w, c2, s, c.epoch)
  {
    assert [] + b == b;
  }

  lemma ClientEntersRecords(w: World, y: Sys, c2: Peer, m: Msg)
    requires w.Valid() && PeerOk(y.c) && Records(w, y.c, y.s) && Extends(y.c, c2) && c2.dhs == y.c.dhs + [m]
    requires c2.hist == y.c.hist && c2.server == y.c.server && |y.c.dhs| == y.c.epoch
    requires ClientSentOk(w, c2, y.s, y.c.epoch)
    ensures Records(w, c2, y.s)
  {
    ClientSentSame(w, y.c, y.s, c2, y.s);
    ServerSentSame(w, y.c, y.s, c2, y.s);
    HistSame(w, y.c, y.c, y.s, c2, c2, y.s);
    HistSame(w, y.s, y.c, y.s, y.s, c2, y.s);
  }

  // ----- Receiving the Diffie-Hellman messages -----

  /** The session identifier is the hash of the first exchange. */
  lemma InstalledSession(p: Peer, x: Exchange)
    requires PeerOk(p) && p.phase == Exchanging
    ensures var p' := Install(p, x);
            p'.hist[0].hash == (if p.session.Some? then p.session.value else x.hash)
  {
  }

  /** What the server computes is the exchange of its number. */
  lemma ServerComputes(w: World, c: Peer, s: Peer, e: nat)
    requires w.Valid() && PeerOk(s) && s.phase == Exchanging && s.server
    requires var n := s.epoch; n < |c.inits| && n < |c.privs| && s.peer == c.inits[n]
    requires var n := s.epoch; ClientDhOk(w, DhInit(e), c.inits[n], s.inits[n], c.privs[n])
    requires var conf := Chosen(w, true, s.my, s.peer); conf.Some? ==> conf.value.need > 0
    ensures var n := s.epoch;
            var g := GroupFor(w, true, s.my, s.peer);
            && g.Some? && g == SharedGroup(w, c.inits[n], s.inits[n]) && Chosen(w, true, s.my, s.peer).Some?
            && var f, k := ModExp(g.value.g, s.priv, g.value.p), ModExp(e, s.priv, g.value.p);
               var x := Compute(w, s, w.hostBlob, e, f, k);
               && ExchangeOk(w, true, Install(s, x).hist[0].hash, x, c.inits[n], s.inits[n], c.privs[n], s.privs[n])
               && ServerDhOk(w, DhReply(w.hostBlob, f, w.sign(x.hash)), c.inits[n], s.inits[n], c.privs[n], s.privs[n])
  {
    var n := s.epoch;
    GroupsAgree(w, c.inits[n], s.inits[n]);
    var g := GroupFor(w, true, s.my, s.peer).value;
    SecretsAgree(g, c.privs[n], s.privs[n]);
    var f, k := ModExp(g.g, s.priv, g.p), ModExp(e, s.priv, g.p);
    InstalledSession(s, Compute(w, s, w.hostBlob, e, f, k));
  }

  /** What the client computes is the exchange of its number, and the server's signature on it verifies. */
  lemma ClientComputes(w: World, c: Peer, s: Peer, f: nat, sig: seq<byte>)
    requires w.Valid() && PeerOk(c) && c.phase == Exchanging && !c.server
    requires var n := c.epoch; n < |s.inits| && n < |s.privs| && c.peer == s.inits[n]
    requires var n := c.epoch; ServerDhOk(w, DhReply(w.hostBlob, f, sig), c.inits[n], s.inits[n], c.privs[n],
                                          s.privs[n])
    requires var conf := Chosen(w, false, c.my, c.peer); conf.Some? ==> conf.value.need > 0
    ensures var n := c.epoch;
            var g := GroupFor(w, false, c.my, c.peer);
            && g.Some? && g == SharedGroup(w, c.inits[n], s.inits[n]) && Chosen(w, false, c.my, c.peer).Some?
            && var e, k := ModExp(g.value.g, c.priv, g.value.p), ModExp(f, c.priv, g.value.p);
               var x := Compute(w, c, w.hostBlob, e, f, k);
               && ExchangeOk(w, false, Install(c, x).hist[0].hash, x, c.inits[n], s.inits[n], c.privs[n], s.privs[n])
               && w.verify(w.hostBlob, sig, x.hash)
  {
    var g := GroupFor(w, false, c.my, c.peer).value;
    var e, k := ModExp(g.g, c.priv, g.p), ModExp(f, c.priv, g.p);
    InstalledSession(c, Compute(w, c, w.hostBlob, e, f, k));
  }

  /** A handler computed its keys: it read the Diffie-Hellman message and sent `ms`, which ends with NEWKEYS. */
  lemma InstalledQueues(p: Peer, q: Peer, p': Peer, pq: seq<Msg>, qp: seq<Msg>, ms: seq<Msg>)
    requires PeerOk(p) && PeerOk(q) && PeerOk(p') && QueueOk(p, q, pq) && QueueOk(q, p, qp) && qp != []
    requires p.phase == Exchanging && p'.phase == Finishing && p'.epoch == p.epoch && Extends(p, p')
             && p'.server == p.server
    requires p'.peer == p.peer
    requires if p.server then |ms| == 2 && ms[1] == NewKeys && p'.dhs == p.dhs + [ms[0]] else ms == [NewKeys]
    ensures QueueOk(p', q, pq + ms) && QueueOk(q, p', qp[1..])
  {
    InstalledSends(p, q, p', pq, ms);
    QueueShrinks(q, p, p', qp);
  }

  lemma InstalledSends(p: Peer, q: Peer, p': Peer, pq: seq<Msg>, ms: seq<Msg>)
    requires PeerOk(p) && PeerOk(p') && QueueOk(p, q, pq)
    requires p.phase == Exchanging && p'.phase == Finishing && p'.epoch == p.epoch && Extends(p, p')
             && p'.server == p.server
    requires if p.server then |ms| == 2 && ms[1] == NewKeys && p'.dhs == p.dhs + [ms[0]] else ms == [NewKeys]
    ensures QueueOk(p', q, pq + ms)
  {
    var n := p.epoch;
    Thirds(n);
    assert Scheduled(p', 3 * n + 2) == NewKeys;
    if p.server { assert Scheduled(p', 3 * n + 1) == ms[0]; }
    QueueGrows(p, p', q, pq, ms);
  }

  /** No keys can be derived when none are needed. */
  predicate Needless(w: World, p: Peer) {
    var conf := Chosen(w, p.server, p.my, p.peer);
    conf.Some? && conf.value.need == 0
  }

  lemma ServerReplies(w: World, y: Sys, e: nat)
    requires w.Valid() && Inv(w, y) && y.s.phase == Exchanging && y.cs != [] && y.cs[0] == DhInit(e) && !y.s.dead
    ensures var (s', ms) := InputInit(w, y.s, e);
            s' == Die(y.s) || Inv(w, y.(s := s', cs := y.cs[1..], sc := y.sc + ms))
  {
    if !Needless(w, y.s) {
      HeadIsExpected(y.c, y.s, y.cs);
      assert ClientSentOk(w, y.c, y.s, y.s.epoch);
      ServerComputes(w, y.c, y.s, e);
      ServerAnswers(w, y, e);
    }
  }

  lemma ServerAnswers(w: World, y: Sys, e: nat)
    requires w.Valid() && Inv(w, y) && y.s.phase == Exchanging && y.cs != [] && !Needless(w, y.s)
    requires y.s.epoch < |y.c.inits| && y.s.epoch < |y.c.privs|
    requires var g := GroupFor(w, true, y.s.my, y.s.peer);
             && g.Some? && Chosen(w, true, y.s.my, y.s.peer).Some?
             && var n := y.s.epoch;
             && var f, k := ModExp(g.value.g, y.s.priv, g.value.p), ModExp(e, y.s.priv, g.value.p);
                var x := Compute(w, y.s, w.hostBlob, e, f, k);
                && ExchangeOk(w, true, Install(y.s, x).hist[0].hash, x, y.c.inits[n], y.s.inits[n], y.c.privs[n],
                              y.s.privs[n])
                && ServerDhOk(w, DhReply(w.hostBlob, f, w.sign(x.hash)), y.c.inits[n], y.s.inits[n], y.c.privs[n],
                              y.s.privs[n])
    ensures var (s', ms) := InputInit(w, y.s, e);
            s' == Die(y.s) || Inv(w, y.(s := s', cs := y.cs[1..], sc := y.sc + ms))
  {
    var g := GroupFor(w, true, y.s.my, y.s.peer);
    var f, k := ModExp(g.value.g, y.s.priv, g.value.p), ModExp(e, y.s.priv, g.value.p);
    var x := Compute(w, y.s, w.hostBlob, e, f, k);
    var m := DhReply(w.hostBlob, f, w.sign(x.hash));
    var s' := Install(y.s, x).(dhs := y.s.dhs + [m]);
    ServerInstalled(w, y.c, y.s, s', x, m);
    InstalledQueues(y.s, y.c, s', y.sc, y.cs, [m, NewKeys]);
    assert InputInit(w, y.s, e) == (s', [m, NewKeys]) || InputInit(w, y.s, e) == (Die(y.s), []);
  }

  lemma InstalledPeer(p: Peer, p': Peer, x: Exchange, m: Msg)
    requires PeerOk(p) && p.phase == Exchanging
    requires p' == if p.server then Install(p, x).(dhs := p.dhs + [m]) else Install(p, x)
    ensures PeerOk(p') && Extends(p, p') && p'.hist == p.hist + [x]
  {
  }

  lemma ServerInstalled(w: World, c: Peer, s: Peer, s': Peer, x: Exchange, m: Msg)
    requires w.Valid() && PeerOk(s) && s.phase == Exchanging && s.server && Records(w, c, s)
    requires s' == Install(s, x).(dhs := s.dhs + [m])
    requires var n := s.epoch; n < |c.inits| && n < |c.privs|
    requires var n := s.epoch; ExchangeOk(w, true, s'.hist[0].hash, x, c.inits[n], s.inits[n], c.privs[n], s.privs[n])
    requires var n := s.epoch; ServerDhOk(w, m, c.inits[n], s.inits[n], c.privs[n], s.privs[n])
    ensures PeerOk(s') && Extends(s, s') && Records(w, c, s')
  {
    InstalledPeer(s, s', x, m);
    NewServerSent(w, c, s, s', m, s.epoch);
    NewServerEntry(w, c, s, s', x, s.epoch);
    ServerRecordsGrow(w, c, s, s', x);
  }

  lemma NewServerSent(w: World, c: Peer, s: Peer, s': Peer, m: Msg, n: nat)
    requires w.Valid() && n == |s.dhs| && n < |c.inits| && n < |s.inits| && n < |c.privs| && n < |s.privs|
    requires s'.inits == s.inits && s'.privs == s.privs && s'.dhs == s.dhs + [m]
    requires ServerDhOk(w, m, c.inits[n], s.inits[n], c.privs[n], s.privs[n])
    ensures ServerSentOk(w, c, s', n)
  {
    assert s'.dhs[n] == m;
    NewSent(w, c, s', n);
  }

  lemma NewServerEntry(w: World, c: Peer, s: Peer, s': Peer, x: Exchange, n: nat)
    requires w.Valid() && n == |s.hist| && n < |c.inits| && n < |s.inits| && n < |c.privs| && n < |s.privs|
    requires s'.server && s'.inits == s.inits && s'.privs == s.privs && s'.hist == s.hist + [x]
    requires ExchangeOk(w, true, s'.hist[0].hash, x, c.inits[n], s.inits[n], c.privs[n], s.privs[n])
    ensures EntryOk(w, s', c, s', n)
  {
    assert s'.hist[n] == x;
    NewEntry(w, s', c, s', n);
  }

  lemma NewSent(w: World, c: Peer, s: Peer, n: nat)
    requires w.Valid() && n < |s.dhs| && n < |c.inits| && n < |s.inits| && n < |c.privs| && n < |s.privs|
    requires ServerDhOk(w, s.dhs[n], c.inits[n], s.inits[n], c.privs[n], s.privs[n])
    ensures ServerSentOk(w, c, s, n)
  {
  }

  lemma NewEntry(w: World, p: Peer, c: Peer, s: Peer, n: nat)
    requires w.Valid() && n < |p.hist| && n < |c.inits| && n < |s.inits| && n < |c.privs| && n < |s.privs|
    requires ExchangeOk(w, p.server, p.hist[0].hash, p.hist[n], c.inits[n], s.inits[n], c.privs[n], s.privs[n])
    ensures EntryOk(w, p, c, s, n)
  {
  }

  lemma ServerRecordsGrow(w: World, c: Peer, s: Peer, s': Peer, x: Exchange)
    requires w.Valid() && Records(w, c, s) && Extends(s, s') && s'.hist == s.hist + [x] && s'.server == s.server
    requires |s'.dhs| == |s.dhs| + 1 && ServerSentOk(w, c, s', |s.dhs|) && EntryOk(w, s', c, s', |s.hist|)
    ensures Records(w, c, s')
  {
    ClientSentSame(w, c, s, c, s');
    ServerSentSame(w, c, s, c, s');
    HistSame(w, c, c, s, c, c, s');
    HistOneMore(w, s, c, s, s', c, s', x);
  }

  lemma ClientFinishes(w: World, y: Sys, blob: seq<byte>, f: nat, sig: seq<byte>)
    requires w.Valid() && Inv(w, y) && y.c.phase == Exchanging && y.sc != [] && y.sc[0] == DhReply(blob, f, sig)
             && !y.c.dead
    ensures var (c', ms) := InputReply(w, y.c, blob, f, sig);
            c' == Die(y.c) || Inv(w, y.(c := c', sc := y.sc[1..], cs := y.cs + ms))
  {
    if !Needless(w, y.c) {
      HeadIsExpected(y.s, y.c, y.sc);
      assert ServerSentOk(w, y.c, y.s, y.c.epoch);
      ClientComputes(w, y.c, y.s, f, sig);
      ClientAccepts(w, y, f, sig);
    }
  }

  lemma ClientAccepts(w: World, y: Sys, f: nat, sig: seq<byte>)
    requires w.Valid() && Inv(w, y) && y.c.phase == Exchanging && y.sc != [] && !Needless(w, y.c)
    requires y.c.epoch < |y.s.inits| && y.c.epoch < |y.s.privs|
    requires var g := GroupFor(w, false, y.c.my, y.c.peer);
             && g.Some? && Chosen(w, false, y.c.my, y.c.peer).Some?
             && var n := y.c.epoch;
             && var e, k := ModExp(g.value.g, y.c.priv, g.value.p), ModExp(f, y.c.priv, g.value.p);
                var x := Compute(w, y.c, w.hostBlob, e, f, k);
                ExchangeOk(w, false, Install(y.c, x).hist[0].hash, x, y.c.inits[n], y.s.inits[n], y.c.privs[n],
                           y.s.privs[n])
    ensures var (c', ms) := InputReply(w, y.c, w.hostBlob, f, sig);
            c' == Die(y.c) || Inv(w, y.(c := c', sc := y.sc[1..], cs := y.cs + ms))
  {
    var g := GroupFor(w, false, y.c.my, y.c.peer);
    var e, k := ModExp(g.value.g, y.c.priv, g.value.p), ModExp(f, y.c.priv, g.value.p);
    var x := Compute(w, y.c, w.hostBlob, e, f, k);
    var c' := Install(y.c, x);
    ClientInstalled(w, y.c, y.s, c', x);
    InstalledQueues(y.c, y.s, c', y.cs, y.sc, [NewKeys]);
    var r := InputReply(w, y.c, w.hostBlob, f, sig);
    assert r == (c', [NewKeys]) || r == (Die(y.c), []);
  }

  lemma ClientInstalled(w: World, c: Peer, s: Peer, c': Peer, x: Exchange)
    requires w.Valid() && PeerOk(c) && c.phase == Exchanging && !c.server && Records(w, c, s)
    requires c' == Install(c, x)
    requires var n := c.epoch; n < |s.inits| && n < |s.privs|
    requires var n := c.epoch; ExchangeOk(w, false, c'.hist[0].hash, x, c.inits[n], s.inits[n], c.privs[n], s.privs[n])
    ensures PeerOk(c') && Extends(c, c') && Records(w, c', s)
  {
    InstalledPeer(c, c', x, NewKeys);
    NewEntry(w, c', c', s, c.epoch);
    ClientSentSame(w, c, s, c', s);
    ServerSentSame(w, c, s, c', s);
    HistOneMore(w, c, c, s, c', c', s, x);
    HistSame(w, s, c, s, s, c', s);
  }

  /** NEWKEYS closes the exchange and prepares the next one. */
  lemma FinishOk(p: Peer, q: Peer, pq: seq<Msg>, qp: seq<Msg>)
    requires PeerOk(p) && PeerOk(q) && QueueOk(p, q, pq) && QueueOk(q, p, qp) && qp != [] && p.phase == Finishing
    ensures var p' := Finish(p); PeerOk(p') && Extends(p, p') && QueueOk(p', q, pq) && QueueOk(q, p', qp[1..])
  {
    var p' := Finish(p);
    QueueGrows(p, p', q, pq, []);
    assert pq + [] == pq;
    QueueShrinks(q, p, p', qp);
  }

  lemma ServerFinishes(w: World, y: Sys)
    requires w.Valid() && Inv(w, y) && y.s.phase == Finishing && y.cs != []
    ensures Inv(w, y.(s := Finish(y.s), cs := y.cs[1..], sc := y.sc + []))
  {
    FinishOk(y.s, y.c, y.sc, y.cs);
    RecordsStable(w, y.c, y.s, y.c, Finish(y.s));
    assert y.sc + [] == y.sc;
  }

  lemma ClientCloses(w: World, y: Sys)
    requires w.Valid() && Inv(w, y) && y.c.phase == Finishing && y.sc != []
    ensures Inv(w, y.(c := Finish(y.c), sc := y.sc[1..], cs := y.cs + []))
  {
    FinishOk(y.c, y.s, y.cs, y.sc);
    RecordsStable(w, y.c, y.s, Finish(y.c), y.s);
    assert y.cs + [] == y.cs;
  }

  lemma SenderRenamed(p: Peer, d: Peer, q: Peer, pq: seq<Msg>)
    requires PeerOk(p) && PeerOk(d) && d.inits == p.inits && d.dhs == p.dhs && Sent(d) == Sent(p) && QueueOk(p, q, pq)
    ensures QueueOk(d, q, pq)
  {
    assert forall i: nat :: i < Sent(p) ==> Scheduled(d, i) == Scheduled(p, i);
  }

  lemma DeadQueues(p: Peer, p': Peer, q: Peer, pq: seq<Msg>, qp: seq<Msg>)
    requires PeerOk(p) && PeerOk(q) && QueueOk(p, q, pq) && QueueOk(q, p, qp) && DiedFrom(p, p')
    ensures PeerOk(p') && QueueOk(p', q, pq) && QueueOk(q, p', qp)
  {
    SenderRenamed(p, p', q, pq);
    SameReader(q, p, p', qp);
  }

  lemma DeadClientStays(w: World, y: Sys, c': Peer)
    requires w.Valid() && Inv(w, y) && DiedFrom(y.c, c')
    ensures Inv(w, y.(c := c'))
  {
    RecordsStable(w, y.c, y.s, c', y.s);
    DeadQueues(y.c, c', y.s, y.cs, y.sc);
  }

  lemma DeadServerStays(w: World, y: Sys, s': Peer)
    requires w.Valid() && Inv(w, y) && DiedFrom(y.s, s')
    ensures Inv(w, y.(s := s'))
  {
    RecordsStable(w, y.c, y.s, y.c, s');
    DeadQueues(y.s, s', y.c, y.sc, y.cs);
  }

  /** The packet a peer reads is always one it waits for, so `Receive` never takes a branch for an unexpected type. */
  lemma NeverConfused(w: World, y: Sys)
    requires w.Valid() && Inv(w, y)
    ensures y.cs != [] && y.s.phase == Ready ==> y.cs[0].KexInit?
    ensures y.cs != [] && y.s.phase == Exchanging ==> y.cs[0].DhInit?
    ensures y.cs != [] && y.s.phase == Finishing ==> y.cs[0].NewKeys?
    ensures y.sc != [] && y.c.phase == Ready ==> y.sc[0].KexInit?
    ensures y.sc != [] && y.c.phase == Exchanging ==> y.sc[0].DhReply?
    ensures y.sc != [] && y.c.phase == Finishing ==> y.sc[0].NewKeys?
  {
    if y.cs != [] {
      HeadIsExpected(y.c, y.s, y.cs);
      assert y.s.phase == Exchanging ==> ClientSentOk(w, y.c, y.s, y.s.epoch);
    }
    if y.sc != [] {
      HeadIsExpected(y.s, y.c, y.sc);
      assert y.c.phase == Exchanging ==> ServerSentOk(w, y.c, y.s, y.c.epoch);
    }
  }

  lemma ToServerKeeps(w: World, y: Sys, cookie: Cookie, priv: nat)
    requires w.Valid() && Inv(w, y)
    ensures Inv(w, Step(w, y, ToServer(cookie, priv)))
  {
    if !y.s.dead && y.cs != [] {
      ServerReceives(w, y, cookie, priv);
      var s' := Receive(w, y.s, y.cs[0], cookie, priv).0;
      if DiedFrom(y.s, s') { DeadServerStays(w, y, s'); }
    }
  }

  lemma ServerReceives(w: World, y: Sys, cookie: Cookie, priv: nat)
    requires w.Valid() && Inv(w, y) && !y.s.dead && y.cs != []
    ensures var (s', ms) := Receive(w, y.s, y.cs[0], cookie, priv);
            DiedFrom(y.s, s') || (!s'.dead && Inv(w, y.(s := s', cs := y.cs[1..], sc := y.sc + ms)))
  {
    NeverConfused(w, y);
    match y.s.phase
    case Ready => ServerEnters(w, y, cookie, priv);
    case Exchanging => ServerReplies(w, y, y.cs[0].e);
    case Finishing => ServerFinishes(w, y);
  }

  lemma ToClientKeeps(w: World, y: Sys, cookie: Cookie, priv: nat)
    requires w.Valid() && Inv(w, y)
    ensures Inv(w, Step(w, y, ToClient(cookie, priv)))
  {
    if !y.c.dead && y.sc != [] {
      ClientReceives(w, y, cookie, priv);
      var c' := Receive(w, y.c, y.sc[0], cookie, priv).0;
      if DiedFrom(y.c, c') { DeadClientStays(w, y, c'); }
    }
  }

  lemma ClientReceives(w: World, y: Sys, cookie: Cookie, priv: nat)
    requires w.Valid() && Inv(w, y) && !y.c.dead && y.sc != []
    ensures var (c', ms) := Receive(w, y.c, y.sc[0], cookie, priv);
            DiedFrom(y.c, c') || (!c'.dead && Inv(w, y.(c := c', sc := y.sc[1..], cs := y.cs + ms)))
  {
    NeverConfused(w, y);
    match y.c.phase
    case Ready => ClientEnters(w, y, cookie, priv);
    case Exchanging => ClientFinishes(w, y, y.sc[0].blob, y.sc[0].f, y.sc[0].sig);
    case Finishing => ClientCloses(w, y);
  }

  lemma StepKeeps(w: World, y: Sys, ev: Event)
    requires w.Valid() && Inv(w, y)
    ensures Inv(w, Step(w, y, ev))
  {
    match ev
    case RekeyClient(_) => RekeyKeeps(w, y, ev);
    case RekeyServer(_) => RekeyKeeps(w, y, ev);
    case ToClient(cookie, priv) => ToClientKeeps(w, y, cookie, priv);
    case ToServer(cookie, priv) => ToServerKeeps(w, y, cookie, priv);
  }

  lemma StartHolds(w: World, cprop: Proposal, sprop: Proposal, ccookie: Cookie, scookie: Cookie)
    requires w.Valid()
    ensures Inv(w, Start(cprop, sprop, ccookie, scookie))
  {
  }

  lemma {:induction false} Always(w: World, y: Sys, evs: seq<Event>)
    requires w.Valid() && Inv(w, y)
    ensures Inv(w, Run(w, y, evs))
    decreases |evs|
  {
    if evs != [] {
      Always(w, y, evs[..|evs| - 1]);
      StepKeeps(w, Run(w, y, evs[..|evs| - 1]), evs[|evs| - 1]);
    }
  }

  // ----- Main results, for every run from `kex_setup` on both sides -----

  ghost predicate Reachable(w: World, y: Sys)
    requires w.Valid()
  {
    exists cprop: Proposal, sprop: Proposal, ccookie: Cookie, scookie: Cookie, evs: seq<Event> ::
      Plain(cprop) && Plain(sprop) && y == Run(w, Start(cprop, sprop, ccookie, scookie), evs)
  }

  lemma ReachableInv(w: World, y: Sys)
    requires w.Valid() && Reachable(w, y)
    ensures Inv(w, y)
  {
    var cprop: Proposal, sprop: Proposal, ccookie: Cookie, scookie: Cookie, evs: seq<Event> :|
      Plain(cprop) && Plain(sprop) && y == Run(w, Start(cprop, sprop, ccookie, scookie), evs);
    StartHolds(w, cprop, sprop, ccookie, scookie);
    Always(w, Start(cprop, sprop, ccookie, scookie), evs);
  }

  /** In every reachable state the flags agree, one KEXINIT was sent per exchange, and no packet surprised anyone. */
  lemma FlagsAreCoherent(w: World, y: Sys)
    requires w.Valid() && Reachable(w, y)
    ensures forall p :: p in {y.c, y.s} ==>
              && (p.phase == Ready ==> (p.done <==> !p.initSent) && p.peer == [])
              && |p.inits| == p.epoch + (if p.initSent then 1 else 0)
              && !p.confused
  {
    ReachableInv(w, y);
  }

  /**
   * The keys of exchange `n` carry the letters of the standard, on the client (`out` from client to server) or
   * mirrored.
   */
  ghost predicate KeysLettered(w: World, ci: seq<byte>, si: seq<byte>, x: Exchange, session: seq<byte>, server: bool)
    requires w.Valid()
  {
    var conf := Chosen(w, false, ci, si);
    var ctos := if server then x.keys.modeIn else x.keys.modeOut;
    var stoc := if server then x.keys.modeOut else x.keys.modeIn;
    && conf.Some? && ctos.alg == conf.value.modeOut && stoc.alg == conf.value.modeIn
    && Lettered(w.digest, conf.value.need, x.hash, x.secret, session, ctos, stoc)
  }

  lemma EntryIsLettered(w: World, server: bool, session: seq<byte>, h: Exchange, ci: seq<byte>, si: seq<byte>, x: nat,
                        y: nat)
    requires w.Valid() && ExchangeOk(w, server, session, h, ci, si, x, y)
    ensures KeysLettered(w, ci, si, h, session, server)
  {
    GroupsAgree(w, ci, si);
    var conf := if server then Chosen(w, true, si, ci) else Chosen(w, false, ci, si);
    KeysByLetter(w.digest, server, conf.value, h.hash, h.secret, session);
  }

  /** The exchange of section 8 of RFC 4253 between the private exponents `x` and `z`, over these KEXINIT payloads. */
  ghost predicate DiffieHellman(w: World, ci: seq<byte>, si: seq<byte>, x: nat, z: nat, h: Exchange)
    requires w.Valid()
  {
    var g := SharedGroup(w, ci, si);
    && g.Some?
    && x * z >= 0 && h.secret == Pow(g.value.g, x * z) % g.value.p
    && h.hash == w.digest.hash(h.transcript)
    && h.transcript == EncodeAll([String(w.clientVersion), String(w.serverVersion), String([20] + ci),
                                  String([20] + si)]
                                 + [String(w.hostBlob), Mpint(Pow(g.value.g, x) % g.value.p),
                                    Mpint(Pow(g.value.g, z) % g.value.p), Mpint(h.secret)])
  }

  lemma EntryIsDiffieHellman(w: World, server: bool, session: seq<byte>, h: Exchange, ci: seq<byte>, si: seq<byte>,
                             x: nat, z: nat)
    requires w.Valid() && ExchangeOk(w, server, session, h, ci, si, x, z)
    ensures DiffieHellman(w, ci, si, x, z, h)
  {
    var g := SharedGroup(w, ci, si).value;
    SecretIsPower(g, z, x);
    assert z * x == x * z;
    TranscriptAsItems(w, ci, si, w.hostBlob, Pub(g, x), Pub(g, z), h.secret);
  }

  /**
   * Exchange `n`, once computed by both sides: one transcript, one hash, one secret, and matching keys. They are the
   * six keys of section 7.2 of RFC 4253, derived from that hash and secret and from the hash of the first exchange.
   */
  lemma ExchangesAgree(w: World, y: Sys, n: nat)
    requires w.Valid() && Reachable(w, y) && n < |y.c.hist| && n < |y.s.hist|
    ensures var c, s := y.c.hist[n], y.s.hist[n];
            && c.transcript == s.transcript && c.hash == s.hash && c.secret == s.secret
            && c.keys.modeOut == s.keys.modeIn && c.keys.modeIn == s.keys.modeOut
    ensures y.c.session == y.s.session == Some(y.c.hist[0].hash)
    ensures n < |y.c.inits| && n < |y.s.inits| && n < |y.c.privs| && n < |y.s.privs|
    ensures DiffieHellman(w, y.c.inits[n], y.s.inits[n], y.c.privs[n], y.s.privs[n], y.c.hist[n])
    ensures KeysLettered(w, y.c.inits[n], y.s.inits[n], y.c.hist[n], y.c.hist[0].hash, false)
    ensures KeysLettered(w, y.c.inits[n], y.s.inits[n], y.s.hist[n], y.c.hist[0].hash, true)
  {
    ReachableInv(w, y);
    assert EntryOk(w, y.c, y.c, y.s, n) && EntryOk(w, y.s, y.c, y.s, n);
    assert EntryOk(w, y.c, y.c, y.s, 0) && EntryOk(w, y.s, y.c, y.s, 0);
    var ci, si, x, z := y.c.inits[n], y.s.inits[n], y.c.privs[n], y.s.privs[n];
    SameExchange(w, y.c.hist[0].hash, y.s.hist[0].hash, y.c.hist[0], y.s.hist[0], y.c.inits[0], y.s.inits[0],
                 y.c.privs[0], y.s.privs[0]);
    SameExchange(w, y.c.hist[0].hash, y.s.hist[0].hash, y.c.hist[n], y.s.hist[n], ci, si, x, z);
    EntryIsDiffieHellman(w, false, y.c.hist[0].hash, y.c.hist[n], ci, si, x, z);
    EntryIsLettered(w, false, y.c.hist[0].hash, y.c.hist[n], ci, si, x, z);
    EntryIsLettered(w, true, y.s.hist[0].hash, y.s.hist[n], ci, si, x, z);
  }

  lemma SameExchange(w: World, cid: seq<byte>, sid: seq<byte>, c: Exchange, s: Exchange,
                     ci: seq<byte>, si: seq<byte>, x: nat, y: nat)
    requires w.Valid() && ExchangeOk(w, false, cid, c, ci, si, x, y) && ExchangeOk(w, true, sid, s, ci, si, x, y)
    ensures c.transcript == s.transcript && c.hash == s.hash && c.secret == s.secret
    ensures cid == sid ==> c.keys.modeOut == s.keys.modeIn && c.keys.modeIn == s.keys.modeOut
  {
    GroupsAgree(w, ci, si);
    KeysAgree(w.digest, Chosen(w, false, ci, si).value, c.hash, c.secret, cid);
  }

  /** No step changes a session identifier that is set. */
  lemma StepKeepsSession(w: World, y: Sys, ev: Event)
    requires w.Valid()
    ensures y.c.session.Some? ==> Step(w, y, ev).c.session == y.c.session
    ensures y.s.session.Some? ==> Step(w, y, ev).s.session == y.s.session
  {
  }

  /** Once set, the session identifier is the same in every later state. */
  lemma {:induction false} SessionIsFixed(w: World, y: Sys, evs: seq<Event>)
    requires w.Valid()
    ensures y.c.session.Some? ==> Run(w, y, evs).c.session == y.c.session
    ensures y.s.session.Some? ==> Run(w, y, evs).s.session == y.s.session
    decreases |evs|
  {
    if evs != [] {
      SessionIsFixed(w, y, evs[..|evs| - 1]);
      StepKeepsSession(w, Run(w, y, evs[..|evs| - 1]), evs[|evs| - 1]);
    }
  }
}
