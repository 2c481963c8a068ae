/** Two channel ends joined by two FIFO message queues: section 5.2 of RFC 4254 as this implementation plays it. */
module FlowControl {
  import opened Arith
  import opened Bytes
  import opened ChannelEnd

  // ----- One end with a record of what it did -----

  /**
   * What an observer of one end writes down: bytes read from and written to its descriptors,
   * received bytes thrown away unwritten (`lost`), extended data ignored without charge (`dropped`),
   * whether a write failed, and whether a refusing branch was ever taken.
   */
  datatype Log = Log(got: seq<byte>, put: seq<byte>, egot: seq<byte>, eput: seq<byte>,
                     lost: nat, dropped: nat, wfail: bool, refused: bool)

  datatype End = End(c: Chan, log: Log)

  /** What the surroundings make one end do. Reads and writes may be partial. */
  datatype Act =
    | ReadRfd(d: seq<byte>)
    | RfdFails
    | Poll
    | WriteWfd(n: nat)
    | WfdFails
    | Drained
    | ReadEfd(d: seq<byte>)
    | EfdFails
    | WriteEfd(n: nat)
    | AdjustWindow
    | Collect

  /** One local action; an action that is not possible leaves the end as it is. */
  function Perform(e: End, a: Act): (End, seq<Msg>) {
    var c, l := e.c, e.log;
    match a
    case ReadRfd(d) =>
      if c.istate == InputOpen then (End(c.(input := c.input + d), l.(got := l.got + d)), []) else (e, [])
    case RfdFails => (End(ReadFailed(c), l), [])
    case Poll =>
      var (c', ms) := OutputPoll(c);
      (End(c', l), ms)
    case WriteWfd(n) =>
      if c.ostate != OutputClosed && 0 < n <= |c.output|
      then (End(Written(c, n), l.(put := l.put + c.output[..n])), [])
      else (e, [])
    case WfdFails =>
      if c.ostate != OutputClosed && c.output != [] then
        var (c', ms) := WriteFailed(c);
        (End(c', l.(lost := l.lost + |c.output|, wfail := true)), ms)
      else (e, [])
    case Drained =>
      if c.ostate == OutputWaitDrain && c.output == [] && !EfdOutputActive(c) then (End(ObufEmpty(c), l), [])
      else (e, [])
    case ReadEfd(d) =>
      if c.efdOpen && c.extUsage == ExtRead then (End(c.(extended := c.extended + d), l.(egot := l.egot + d)), [])
      else (e, [])
    case EfdFails => (End(c.(efdOpen := false), l), [])
    case WriteEfd(n) =>
      if c.efdOpen && c.extUsage == ExtWrite && 0 < n <= |c.extended|
      then (End(ExtWritten(c, n), l.(eput := l.eput + c.extended[..n])), [])
      else (e, [])
    case AdjustWindow =>
      var (c', ms) := CheckWindow(c);
      (End(c', l), ms)
    case Collect =>
      var (c', ms) := SendCloseIfDone(c);
      (End(c', l), ms)
  }

  /** One message from the peer. */
  function Receive(e: End, m: Msg): (End, seq<Msg>) {
    var c, l := e.c, e.log;
    match m
    case Data(d) =>
      var (c', r) := InputData(c, d);
      (End(c', l.(refused := l.refused || r != Accepted)), [])
    case ExtData(d) =>
      var (c', r) := InputExtData(c, d);
      (End(c', l.(refused := l.refused || r == TooMuch || r == AfterEof,
                  dropped := if r == BadExtData then l.dropped + |d| else l.dropped)), [])
    case WindowAdjust(n) => (End(InputWindowAdjust(c, n), l), [])
    case Eof => (End(RcvdEof(c), l), [])
    case Close =>
      var (c', ms) := RcvdClose(c);
      (End(c', l), ms)
    case Eow => (End(RcvdEow(c), l), [])
  }

  // ----- Two ends -----

  datatype Sys = Sys(a: End, b: End, ab: seq<Msg>, ba: seq<Msg>)

  datatype Event = ActA(act: Act) | ActB(act: Act) | DeliverToA | DeliverToB

  function Step(s: Sys, ev: Event): Sys {
    match ev
    case ActA(act) =>
      var (a', ms) := Perform(s.a, act);
      s.(a := a', ab := s.ab + ms)
    case ActB(act) =>
      var (b', ms) := Perform(s.b, act);
      s.(b := b', ba := s.ba + ms)
    case DeliverToA =>
      if s.ba == [] then s
      else
        var (a', ms) := Receive(s.a, s.ba[0]);
        s.(a := a', ba := s.ba[1..], ab := s.ab + ms)
    case DeliverToB =>
      if s.ab == [] then s
      else
        var (b', ms) := Receive(s.b, s.ab[0]);
        s.(b := b', ab := s.ab[1..], ba := s.ba + ms)
  }

  /** Every interleaving is a list of events. */
  function Run(s: Sys, evs: seq<Event>): Sys
    decreases |evs|
  {
    if evs == [] then s else Step(Run(s, evs[..|evs| - 1]), evs[|evs| - 1])
  }

  predicate FreshEnd(e: End) {
    && e.log == Log([], [], [], [], 0, 0, false, false)
    && e.c.istate == InputOpen && e.c.ostate == OutputOpen
    && !e.c.closeSent && !e.c.closeRcvd && !e.c.eofSent && !e.c.eofRcvd
    && e.c.input == [] && e.c.output == [] && e.c.extended == []
    && e.c.localWindow == e.c.localWindowMax && e.c.localConsumed == 0
  }

  /**
   * The window of `y` is known to `x`: either through the open confirmation, or through the adjustment
   * `channel_set_fds` sends for a channel that was larval with window zero.
   */
  predicate Announced(x: End, y: End, yx: seq<Msg>) {
    || (x.c.remoteWindow == y.c.localWindowMax && yx == [])
    || (x.c.remoteWindow == 0 && yx == [WindowAdjust(y.c.localWindowMax)])
  }

  predicate Init(s: Sys) {
    FreshEnd(s.a) && FreshEnd(s.b) && Announced(s.a, s.b, s.ba) && Announced(s.b, s.a, s.ab)
  }

  // ----- What is in flight -----

  predicate Payload(m: Msg) { m.Data? || m.ExtData? }

  predicate Closing(m: Msg) { m.Eof? || m.Close? }

  function LenOf(m: Msg): nat { if Payload(m) then |m.d| else 0 }

  function AdjustOf(m: Msg): nat { if m.WindowAdjust? then m.n else 0 }

  /** Bytes of data and extended data in flight. */
  function Charge(q: seq<Msg>): nat {
    if q == [] then 0 else LenOf(q[0]) + Charge(q[1..])
  }

  /** Window adjustments in flight. */
  function Credit(q: seq<Msg>): nat {
    if q == [] then 0 else AdjustOf(q[0]) + Credit(q[1..])
  }

  function DataIn(q: seq<Msg>): seq<byte> {
    if q == [] then [] else (if q[0].Data? then q[0].d else []) + DataIn(q[1..])
  }

  function ExtDataIn(q: seq<Msg>): seq<byte> {
    if q == [] then [] else (if q[0].ExtData? then q[0].d else []) + ExtDataIn(q[1..])
  }

  ghost predicate HasPayload(q: seq<Msg>) { exists i :: 0 <= i < |q| && Payload(q[i]) }

  lemma {:induction false} ConcatNumbers(p: seq<Msg>, q: seq<Msg>)
    ensures Charge(p + q) == Charge(p) + Charge(q) && Credit(p + q) == Credit(p) + Credit(q)
  {
    if p == [] {
      assert p + q == q;
    } else {
      ConcatNumbers(p[1..], q);
      assert (p + q)[1..] == p[1..] + q;
    }
  }

  lemma {:induction false} ConcatData(p: seq<Msg>, q: seq<Msg>)
    ensures DataIn(p + q) == DataIn(p) + DataIn(q)
  {
    if p == [] {
      assert p + q == q;
    } else {
      ConcatData(p[1..], q);
      assert (p + q)[1..] == p[1..] + q;
    }
  }

  lemma {:induction false} ConcatExtData(p: seq<Msg>, q: seq<Msg>)
    ensures ExtDataIn(p + q) == ExtDataIn(p) + ExtDataIn(q)
  {
    if p == [] {
      assert p + q == q;
    } else {
      ConcatExtData(p[1..], q);
      assert (p + q)[1..] == p[1..] + q;
    }
  }

  lemma Concat(p: seq<Msg>, q: seq<Msg>)
    ensures Charge(p + q) == Charge(p) + Charge(q) && Credit(p + q) == Credit(p) + Credit(q)
    ensures DataIn(p + q) == DataIn(p) + DataIn(q) && ExtDataIn(p + q) == ExtDataIn(p) + ExtDataIn(q)
  {
    ConcatNumbers(p, q);
    ConcatData(p, q);
    ConcatExtData(p, q);
  }

  lemma {:induction false} NoPayloadNoBytes(q: seq<Msg>)
    requires !HasPayload(q)
    ensures Charge(q) == 0 && DataIn(q) == [] && ExtDataIn(q) == []
  {
    if q != [] {
      assert !Payload(q[0]);
      assert forall i :: 0 <= i < |q| - 1 ==> q[1..][i] == q[i + 1];
      NoPayloadNoBytes(q[1..]);
    }
  }

  lemma One(m: Msg)
    ensures Charge([m]) == LenOf(m) && Credit([m]) == AdjustOf(m)
    ensures DataIn([m]) == (if m.Data? then m.d else []) && ExtDataIn([m]) == (if m.ExtData? then m.d else [])
  {
    assert [m][1..] == [];
  }

  // ----- Invariants of one end -----

  function Held(c: Chan): nat { if c.extUsage == ExtWrite then |c.extended| else 0 }

  /** Every byte of the window is granted, to be granted back, buffered or lost. */
  predicate Conserves(e: End) {
    e.c.localWindow + e.c.localConsumed + |e.c.output| + Held(e.c) + e.log.lost == e.c.localWindowMax
  }

  predicate Coherent(e: End) {
    && (e.c.eofSent ==> e.c.istate == InputClosed)
    && (e.c.closeSent ==> e.c.istate == InputClosed && e.c.ostate == OutputClosed)
    && (e.c.ostate == OutputClosed ==> e.c.output == [])
    && (e.c.ostate != OutputOpen && !e.log.wfail ==> e.c.eofRcvd || e.c.closeRcvd)
    && (e.log.wfail ==> e.c.ostate == OutputClosed)
    && (e.c.ostate == OutputClosed && !e.log.wfail && e.c.extUsage == ExtWrite && e.c.efdOpen ==> e.c.extended == [])
  }

  /** No extended data is left to send, and none will be read. */
  predicate ExtDone(c: Chan) { c.extUsage == ExtRead ==> !c.efdOpen && c.extended == [] }

  predicate EndInv(e: End) { Conserves(e) && Coherent(e) }

  // ----- What a local action does, seen by the peer -----

  /** As a sender: bytes leave the input in order, and each is charged to the window. */
  ghost predicate Sends(e: End, e': End, ms: seq<Msg>) {
    && e.c.remoteWindow == e'.c.remoteWindow + Charge(ms)
    && e.log.got <= e'.log.got
    && e.c.input + e'.log.got[|e.log.got|..] == DataIn(ms) + e'.c.input
    && e'.c.extUsage == e.c.extUsage
    && (e.c.extUsage == ExtRead ==>
          && e.log.egot <= e'.log.egot
          && e.c.extended + e'.log.egot[|e.log.egot|..] == ExtDataIn(ms) + e'.c.extended)
  }

  /** As a sender: nothing is sent after the end was announced. */
  ghost predicate Announces(e: End, e': End, ms: seq<Msg>) {
    && (e.c.eofSent ==> e'.c.eofSent) && (e.c.closeSent ==> e'.c.closeSent)
    && (e.c.eofSent || e.c.closeSent ==> !HasPayload(ms))
    && (forall i :: 0 <= i < |ms| && Closing(ms[i]) ==> |ms| == 1)
    && (Eof in ms ==> e'.c.eofSent) && (Close in ms ==> e'.c.closeSent)
    && (e'.c.istate == InputClosed ==> e.c.istate == InputClosed || e'.c.eofSent)
    && (e'.c.eofSent ==> e'.c.input == [] || (e.c.eofSent && e'.c.input == e.c.input))
    && (e'.c.eofSent ==> ExtDone(e'.c) || (e.c.eofSent && !ExtDone(e.c)))
  }

  /** As a receiver: the window grows by what is announced, and bytes leave the output in order. */
  ghost predicate Holds(e: End, e': End, ms: seq<Msg>) {
    && e'.c.localWindow == e.c.localWindow + Credit(ms)
    && e'.c.localWindowMax == e.c.localWindowMax && e'.log.dropped == e.log.dropped && e'.log.refused == e.log.refused
    && e'.c.eofRcvd == e.c.eofRcvd && e'.c.closeRcvd == e.c.closeRcvd
    && e'.c.extUsage == e.c.extUsage
    && (e.log.wfail ==> e'.log.wfail)
    && (if e'.log.wfail then e'.log.put == e.log.put else e.log.put + e.c.output == e'.log.put + e'.c.output)
    && (e.c.extUsage == ExtWrite ==> e.log.eput + e.c.extended == e'.log.eput + e'.c.extended)
    && (Eow in ms ==> e'.log.wfail)
  }

  ghost predicate LocalOk(e: End, e': End, ms: seq<Msg>) {
    EndInv(e') && Sends(e, e', ms) && Announces(e, e', ms) && Holds(e, e', ms)
  }

  lemma SilentOk(e: End, e': End)
    requires EndInv(e')
    requires e'.c.remoteWindow == e.c.remoteWindow && e'.log.got == e.log.got && e'.c.input == e.c.input
    requires e'.c.extUsage == e.c.extUsage && e'.log.egot == e.log.egot
             && (e.c.extUsage == ExtRead ==> e'.c.extended == e.c.extended)
    requires e'.c.istate == e.c.istate && e'.c.eofSent == e.c.eofSent && e'.c.closeSent == e.c.closeSent
    requires e'.c.efdOpen ==> e.c.efdOpen
    requires Holds(e, e', [])
    ensures LocalOk(e, e', [])
  {
    assert e.c.input + e'.log.got[|e.log.got|..] == e.c.input;
    assert e.c.extended + e'.log.egot[|e.log.egot|..] == e.c.extended;
  }

  lemma ReadRfdOk(e: End, d: seq<byte>)
    requires EndInv(e)
    ensures var (e', ms) := Perform(e, ReadRfd(d)); LocalOk(e, e', ms)
  {
    var (e', ms) := Perform(e, ReadRfd(d));
    assert e.c.extended + e'.log.egot[|e.log.egot|..] == e.c.extended;
    if e.c.istate == InputOpen {
      assert (e.log.got + d)[|e.log.got|..] == d;
    } else {
      assert e.c.input + e'.log.got[|e.log.got|..] == e.c.input;
    }
  }

  lemma ReadEfdOk(e: End, d: seq<byte>)
    requires EndInv(e)
    ensures var (e', ms) := Perform(e, ReadEfd(d)); LocalOk(e, e', ms)
  {
    if e.c.efdOpen && e.c.extUsage == ExtRead {
      ExtReadOk(e, d);
    } else {
      SilentOk(e, e);
    }
  }

  lemma ExtReadOk(e: End, d: seq<byte>)
    requires EndInv(e) && e.c.efdOpen && e.c.extUsage == ExtRead
    ensures LocalOk(e, End(e.c.(extended := e.c.extended + d), e.log.(egot := e.log.egot + d)), [])
  {
    assert e.c.input + e.log.got[|e.log.got|..] == e.c.input;
    assert (e.log.egot + d)[|e.log.egot|..] == d;
  }

  /** What the first half of a poll may leave behind. */
  ghost predicate PolledInput(e: End, c': Chan, ms: seq<Msg>) {
    && LocalOk(e, e.(c := c'), ms) && |ms| <= 1 && c'.closeSent == e.c.closeSent
    && (c'.eofSent ==> e.c.eofSent || ms == [Eof])
  }

  lemma NothingPolled(e: End)
    requires EndInv(e)
    ensures PolledInput(e, e.c, [])
  {
    SilentOk(e, e);
    assert e.(c := e.c) == e;
  }

  lemma DataPolled(e: End, len: nat)
    requires EndInv(e) && !e.c.closeSent && e.c.istate != InputClosed
    requires 0 < len <= |e.c.input| && len <= e.c.remoteWindow
    ensures PolledInput(e, e.c.(input := e.c.input[len..], remoteWindow := Sub32(e.c.remoteWindow, len)),
                        [Data(e.c.input[..len])])
  {
    var m := Data(e.c.input[..len]);
    One(m);
    assert Sub32(e.c.remoteWindow, len) == e.c.remoteWindow - len;
    assert e.c.extended + e.log.egot[|e.log.egot|..] == [] + e.c.extended;
    assert e.c.input + e.log.got[|e.log.got|..] == e.c.input[..len] + e.c.input[len..];
  }

  lemma EofPolled(e: End)
    requires EndInv(e) && !e.c.closeSent && e.c.istate == InputWaitDrain && e.c.input == [] && !EfdInputActive(e.c)
    ensures PolledInput(e, e.c.(istate := InputClosed, eofSent := true), [Eof])
  {
    One(Eof);
    SameStreams(e, e.(c := e.c.(istate := InputClosed, eofSent := true)), [Eof]);
  }

  lemma PollInputOk(e: End)
    requires EndInv(e) && !e.c.closeSent && !e.c.closeRcvd
    ensures var (c', ms) := PollInput(e.c); PolledInput(e, c', ms)
  {
    NothingPolled(e);
    if e.c.istate != InputClosed && e.c.input != [] {
      var len := Min(Min(|e.c.input|, e.c.remoteWindow), e.c.remoteMaxpacket);
      if len > 0 { DataPolled(e, len); }
    } else if e.c.istate == InputWaitDrain && !EfdInputActive(e.c) {
      EofPolled(e);
    }
  }

  lemma PollExtendedOk(e: End)
    requires EndInv(e) && !e.c.closeSent && !e.c.closeRcvd
    ensures var (c', ms) := PollExtended(e.c);
            && LocalOk(e, e.(c := c'), ms) && |ms| <= 1 && (e.c.eofSent ==> ms == [])
            && (forall m :: m in ms ==> m.ExtData?)
    ensures var (c', ms) := PollExtended(e.c);
            c'.eofSent == e.c.eofSent && c'.istate == e.c.istate && c'.input == e.c.input
  {
    if !e.c.eofSent && e.c.remoteWindow > 0 && e.c.extended != [] && e.c.extUsage == ExtRead {
      ExtDataPolled(e, Min(Min(|e.c.extended|, e.c.remoteWindow), e.c.remoteMaxpacket));
    } else {
      SilentOk(e, e);
      assert e.(c := e.c) == e;
    }
  }

  lemma ExtDataPolled(e: End, len: nat)
    requires EndInv(e) && !e.c.closeSent && !e.c.eofSent && e.c.extUsage == ExtRead
    requires len <= |e.c.extended| && len <= e.c.remoteWindow
    ensures var c' := e.c.(extended := e.c.extended[len..], remoteWindow := Sub32(e.c.remoteWindow, len));
            LocalOk(e, e.(c := c'), [ExtData(e.c.extended[..len])])
  {
    var m := ExtData(e.c.extended[..len]);
    var c' := e.c.(extended := e.c.extended[len..], remoteWindow := e.c.remoteWindow - len);
    assert Sub32(e.c.remoteWindow, len) == e.c.remoteWindow - len;
    ExtDataSends(e, len);
    One(m);
    assert Holds(e, e.(c := c'), [m]);
    assert Announces(e, e.(c := c'), [m]);
  }

  lemma ExtDataSends(e: End, len: nat)
    requires e.c.extUsage == ExtRead && len <= |e.c.extended| && len <= e.c.remoteWindow
    ensures var c' := e.c.(extended := e.c.extended[len..], remoteWindow := e.c.remoteWindow - len);
            Sends(e, e.(c := c'), [ExtData(e.c.extended[..len])])
  {
    One(ExtData(e.c.extended[..len]));
    assert e.c.input + e.log.got[|e.log.got|..] == [] + e.c.input;
    assert e.c.extended + e.log.egot[|e.log.egot|..] == e.c.extended[..len] + e.c.extended[len..];
  }

  ghost predicate Composable(e: End, e1: End, e2: End, m1: seq<Msg>, m2: seq<Msg>) {
    && e1.log == e.log && e2.log == e.log
    && |m1| <= 1 && |m2| <= 1 && (forall m :: m in m2 ==> m.ExtData?) && (e1.c.eofSent ==> m2 == [])
    && e2.c.eofSent == e1.c.eofSent && e2.c.istate == e1.c.istate && e2.c.input == e1.c.input
    && e1.c.closeSent == e.c.closeSent && !e.c.closeSent && (e1.c.eofSent ==> e.c.eofSent || m1 == [Eof])
  }

  lemma ComposeSends(e: End, e1: End, e2: End, m1: seq<Msg>, m2: seq<Msg>)
    requires Composable(e, e1, e2, m1, m2) && Sends(e, e1, m1) && Sends(e1, e2, m2)
    ensures Sends(e, e2, m1 + m2)
  {
    Concat(m1, m2);
    var l := e.log;
    assert l.got[|l.got|..] == [] && l.egot[|l.egot|..] == [];
    calc {
      e.c.input + [];
      DataIn(m1) + e1.c.input;
      DataIn(m1) + (e1.c.input + []);
      DataIn(m1) + (DataIn(m2) + e2.c.input);
      DataIn(m1) + DataIn(m2) + e2.c.input;
    }
    if e.c.extUsage == ExtRead {
      calc {
        e.c.extended + [];
        ExtDataIn(m1) + e1.c.extended;
        ExtDataIn(m1) + (e1.c.extended + []);
        ExtDataIn(m1) + (ExtDataIn(m2) + e2.c.extended);
        ExtDataIn(m1) + ExtDataIn(m2) + e2.c.extended;
      }
    }
  }

  lemma ComposeAnnounces(e: End, e1: End, e2: End, m1: seq<Msg>, m2: seq<Msg>)
    requires Composable(e, e1, e2, m1, m2) && Announces(e, e1, m1) && Announces(e1, e2, m2)
    ensures Announces(e, e2, m1 + m2)
  {
    if m2 == [] {
      assert m1 + m2 == m1;
    } else {
      assert Eof !in m1 && Close !in m1;
      assert forall i :: 0 <= i < |m1| ==> m1[i] in m1;
      assert forall i :: 0 <= i < |m2| ==> m2[i] in m2;
    }
  }

  lemma ComposeHolds(e: End, e1: End, e2: End, m1: seq<Msg>, m2: seq<Msg>)
    requires Composable(e, e1, e2, m1, m2) && Holds(e, e1, m1) && Holds(e1, e2, m2)
    ensures Holds(e, e2, m1 + m2)
  {
    ConcatNumbers(m1, m2);
  }

  lemma PollOk(e: End)
    requires EndInv(e)
    ensures var (e', ms) := Perform(e, Poll); LocalOk(e, e', ms)
  {
    if e.c.closeSent || e.c.closeRcvd {
      SilentOk(e, e);
    } else {
      var (c1, m1) := PollInput(e.c);
      var e1 := e.(c := c1);
      PollInputOk(e);
      var (c2, m2) := PollExtended(c1);
      PollExtendedOk(e1);
      var e2 := e.(c := c2);
      ComposeSends(e, e1, e2, m1, m2);
      ComposeAnnounces(e, e1, e2, m1, m2);
      ComposeHolds(e, e1, e2, m1, m2);
    }
  }

  lemma WriteWfdOk(e: End, n: nat)
    requires EndInv(e)
    ensures var (e', ms) := Perform(e, WriteWfd(n)); LocalOk(e, e', ms)
  {
    var (e', ms) := Perform(e, WriteWfd(n));
    if e.c.ostate != OutputClosed && 0 < n <= |e.c.output| {
      WrittenHolds(e, n);
    }
    SilentOk(e, e');
  }

  lemma WrittenHolds(e: End, n: nat)
    requires EndInv(e) && e.c.ostate != OutputClosed && 0 < n <= |e.c.output|
    ensures var e' := Perform(e, WriteWfd(n)).0; EndInv(e') && Holds(e, e', [])
  {
    var o := e.c.output;
    assert o == o[..n] + o[n..];
    assert e.log.put + (o[..n] + o[n..]) == e.log.put + o[..n] + o[n..];
  }

  lemma WriteEfdOk(e: End, n: nat)
    requires EndInv(e)
    ensures var (e', ms) := Perform(e, WriteEfd(n)); LocalOk(e, e', ms)
  {
    var (e', ms) := Perform(e, WriteEfd(n));
    if e.c.efdOpen && e.c.extUsage == ExtWrite && 0 < n <= |e.c.extended| {
      ExtWrittenHolds(e, n);
    }
    SilentOk(e, e');
  }

  lemma ExtWrittenHolds(e: End, n: nat)
    requires EndInv(e) && e.c.efdOpen && e.c.extUsage == ExtWrite && 0 < n <= |e.c.extended|
    ensures var e' := Perform(e, WriteEfd(n)).0; EndInv(e') && Holds(e, e', [])
  {
    var x := e.c.extended;
    assert x == x[..n] + x[n..];
    assert e.log.eput + (x[..n] + x[n..]) == e.log.eput + x[..n] + x[n..];
  }

  lemma QuietOk(e: End, a: Act)
    requires EndInv(e) && (a.Drained? || a.EfdFails?)
    ensures var (e', ms) := Perform(e, a); LocalOk(e, e', ms)
  {
    SilentOk(e, Perform(e, a).0);
  }

  lemma SameStreams(e: End, e': End, ms: seq<Msg>)
    requires e'.log.got == e.log.got && e'.log.egot == e.log.egot
    requires e'.c.input == e.c.input && e'.c.extended == e.c.extended && e'.c.extUsage == e.c.extUsage
    requires e'.c.remoteWindow == e.c.remoteWindow && |ms| <= 1 && !HasPayload(ms)
    ensures Sends(e, e', ms)
  {
    NoPayloadNoBytes(ms);
    assert e.c.extended + e.log.egot[|e.log.egot|..] == e.c.extended;
    assert e.c.input + e.log.got[|e.log.got|..] == e.c.input;
  }

  lemma RfdFailsOk(e: End)
    requires EndInv(e)
    ensures var (e', ms) := Perform(e, RfdFails); LocalOk(e, e', ms)
  {
    SameStreams(e, Perform(e, RfdFails).0, []);
  }

  lemma WfdFailsOk(e: End)
    requires EndInv(e)
    ensures var (e', ms) := Perform(e, WfdFails); LocalOk(e, e', ms)
  {
    var (e', ms) := Perform(e, WfdFails);
    SameStreams(e, e', ms);
    if ms != [] { One(ms[0]); }
  }

  lemma AdjustWindowOk(e: End)
    requires EndInv(e)
    ensures var (e', ms) := Perform(e, AdjustWindow); LocalOk(e, e', ms)
  {
    var (e', ms) := Perform(e, AdjustWindow);
    SameStreams(e, e', ms);
    if ms != [] { One(ms[0]); }
  }

  lemma CollectOk(e: End)
    requires EndInv(e)
    ensures var (e', ms) := Perform(e, Collect); LocalOk(e, e', ms)
  {
    var (e', ms) := Perform(e, Collect);
    SameStreams(e, e', ms);
    if ms != [] { One(ms[0]); }
  }

  /** Every local action keeps the invariants of its end and does what the peer relies on. */
  lemma PerformOk(e: End, a: Act)
    requires EndInv(e)
    ensures var (e', ms) := Perform(e, a); LocalOk(e, e', ms)
  {
    match a
    case ReadRfd(d) => ReadRfdOk(e, d);
    case RfdFails => RfdFailsOk(e);
    case Poll => PollOk(e);
    case WriteWfd(n) => WriteWfdOk(e, n);
    case WfdFails => WfdFailsOk(e);
    case Drained => QuietOk(e, a);
    case ReadEfd(d) => ReadEfdOk(e, d);
    case EfdFails => QuietOk(e, a);
    case WriteEfd(n) => WriteEfdOk(e, n);
    case AdjustWindow => AdjustWindowOk(e);
    case Collect => CollectOk(e);
  }
}
