/** What an end sends, how much, and how it stops: packet limits and shutdown over every run. */
module ChannelLimits {
  import opened Bytes
  import opened ChannelEnd
  import opened FlowControl
  import opened FlowSafety

  // ----- Packet sizes -----

  /** Every packet with data has at most `max` bytes of it. */
  ghost predicate Fitting(q: seq<Msg>, max: nat) {
    forall i :: 0 <= i < |q| && Payload(q[i]) ==> |q[i].d| <= max
  }

  lemma FittingConcat(p: seq<Msg>, q: seq<Msg>, max: nat)
    requires Fitting(p, max) && Fitting(q, max)
    ensures Fitting(p + q, max)
  {
    assert forall i :: 0 <= i < |q| ==> (p + q)[|p| + i] == q[i];
  }

  lemma PollFits(c: Chan)
    ensures var (c', ms) := OutputPoll(c); c'.remoteMaxpacket == c.remoteMaxpacket && Fitting(ms, c.remoteMaxpacket)
  {
    var (c1, m1) := PollInput(c);
    var (c2, m2) := PollExtended(c1);
    assert Fitting(m1, c.remoteMaxpacket) && Fitting(m2, c.remoteMaxpacket);
    FittingConcat(m1, m2, c.remoteMaxpacket);
  }

  lemma PerformFits(e: End, a: Act)
    ensures var (e', ms) := Perform(e, a);
            e'.c.remoteMaxpacket == e.c.remoteMaxpacket && Fitting(ms, e.c.remoteMaxpacket)
  {
    match a
    case Poll => PollFits(e.c);
    case _ =>
  }

  lemma ReceiveFits(e: End, m: Msg)
    ensures var (e', ms) := Receive(e, m);
            e'.c.remoteMaxpacket == e.c.remoteMaxpacket && Fitting(ms, e.c.remoteMaxpacket)
  {
    match m
    case Data(d) =>
    case ExtData(d) =>
    case Close => CloseFits(e.c);
    case _ =>
  }

  lemma CloseFits(c: Chan)
    ensures var (c', ms) := RcvdClose(c); c'.remoteMaxpacket == c.remoteMaxpacket && Fitting(ms, c.remoteMaxpacket)
  {
  }

  ghost predicate AllFitting(s: Sys) {
    Fitting(s.ab, s.a.c.remoteMaxpacket) && Fitting(s.ba, s.b.c.remoteMaxpacket)
  }

  lemma TailFits(q: seq<Msg>, max: nat)
    requires q != [] && Fitting(q, max)
    ensures Fitting(q[1..], max)
  {
  }

  lemma StepFits(s: Sys, ev: Event)
    requires AllFitting(s)
    ensures AllFitting(Step(s, ev))
  {
    match ev
    case ActA(act) =>
      PerformFits(s.a, act);
      FittingConcat(s.ab, Perform(s.a, act).1, s.a.c.remoteMaxpacket);
    case ActB(act) =>
      PerformFits(s.b, act);
      FittingConcat(s.ba, Perform(s.b, act).1, s.b.c.remoteMaxpacket);
    case DeliverToA =>
      if s.ba != [] {
        ReceiveFits(s.a, s.ba[0]);
        TailFits(s.ba, s.b.c.remoteMaxpacket);
        FittingConcat(s.ab, Receive(s.a, s.ba[0]).1, s.a.c.remoteMaxpacket);
      }
    case DeliverToB =>
      if s.ab != [] {
        ReceiveFits(s.b, s.ab[0]);
        TailFits(s.ab, s.a.c.remoteMaxpacket);
        FittingConcat(s.ba, Receive(s.b, s.ab[0]).1, s.b.c.remoteMaxpacket);
      }
  }

  lemma {:induction false} RunFits(s: Sys, evs: seq<Event>)
    requires AllFitting(s)
    ensures AllFitting(Run(s, evs))
    decreases |evs|
  {
    if evs != [] {
      RunFits(s, evs[..|evs| - 1]);
      StepFits(Run(s, evs[..|evs| - 1]), evs[|evs| - 1]);
    }
  }

  /** In every reachable state, no packet under way is larger than its receiver said it takes. */
  lemma PacketsFit(s: Sys)
    requires Reachable(s)
    ensures Fitting(s.ab, s.a.c.remoteMaxpacket) && Fitting(s.ba, s.b.c.remoteMaxpacket)
  {
    var s0: Sys, evs: seq<Event> :| Init(s0) && s == Run(s0, evs);
    RunFits(s0, evs);
  }

  // ----- Exactly what one poll sends -----

  /** `n` is the smallest of three numbers. */
  predicate Smallest(n: nat, x: nat, y: nat, z: nat) {
    n <= x && n <= y && n <= z && (n == x || n == y || n == z)
  }

  /** One poll sends `n` bytes of input, the announcement of its end, and `m` bytes of extended data. */
  ghost predicate Polls(c: Chan, c': Chan, ms: seq<Msg>, n: nat, eof: bool, m: nat) {
    && n <= |c.input| && m <= |c.extended| && n + m <= c.remoteWindow
    && (if c.istate == InputClosed then n == 0 else Smallest(n, |c.input|, c.remoteWindow, c.remoteMaxpacket))
    && (eof <==> c.istate == InputWaitDrain && c.input == []
                 && !(c.extUsage == ExtRead && (c.efdOpen || c.extended != [])))
    && var ext := c.extUsage == ExtRead && c.extended != [] && !c.eofSent && c.remoteWindow > n;
       && (if ext then Smallest(m, |c.extended|, c.remoteWindow - n, c.remoteMaxpacket) else m == 0)
       && ms == (if n > 0 then [Data(c.input[..n])] else []) + (if eof then [Eof] else [])
                + (if ext then [ExtData(c.extended[..m])] else [])
       && c' == c.(input := c.input[n..], extended := c.extended[m..], remoteWindow := c.remoteWindow - n - m,
                   istate := if eof then InputClosed else c.istate, eofSent := eof || c.eofSent)
  }

  lemma PollInputExact(c: Chan) returns (n: nat, eof: bool)
    requires !c.closeSent
    ensures n <= |c.input| && n <= c.remoteWindow
    ensures if c.istate == InputClosed then n == 0 else Smallest(n, |c.input|, c.remoteWindow, c.remoteMaxpacket)
    ensures eof <==> c.istate == InputWaitDrain && c.input == []
                     && !(c.extUsage == ExtRead && (c.efdOpen || c.extended != []))
    ensures PollInput(c) == (c.(input := c.input[n..], remoteWindow := c.remoteWindow - n,
                                istate := if eof then InputClosed else c.istate, eofSent := eof || c.eofSent),
                             (if n > 0 then [Data(c.input[..n])] else []) + (if eof then [Eof] else []))
  {
    n := if c.istate == InputClosed then 0
         else if |c.input| <= c.remoteWindow && |c.input| <= c.remoteMaxpacket then |c.input|
         else if c.remoteWindow <= c.remoteMaxpacket then c.remoteWindow else c.remoteMaxpacket;
    eof := c.istate == InputWaitDrain && c.input == [] && !(c.extUsage == ExtRead && (c.efdOpen || c.extended != []));
    assert c.input[0..] == c.input;
    assert Sub32(c.remoteWindow, n) == c.remoteWindow - n;
    var data := if n > 0 then [Data(c.input[..n])] else [];
    assert data + [] == data && (eof ==> n == 0) && [] + [Eof] == [Eof];
    if n == 0 && !eof { assert PollInput(c) == (c, []); }
  }

  lemma PollExtendedExact(c: Chan) returns (m: nat)
    ensures m <= |c.extended| && m <= c.remoteWindow
    ensures var ext := c.extUsage == ExtRead && c.extended != [] && !c.eofSent && c.remoteWindow > 0;
            && (if ext then Smallest(m, |c.extended|, c.remoteWindow, c.remoteMaxpacket) else m == 0)
            && PollExtended(c) == (c.(extended := c.extended[m..], remoteWindow := c.remoteWindow - m),
                                   if ext then [ExtData(c.extended[..m])] else [])
  {
    var ext := c.extUsage == ExtRead && c.extended != [] && !c.eofSent && c.remoteWindow > 0;
    m := if !ext then 0
         else if |c.extended| <= c.remoteWindow && |c.extended| <= c.remoteMaxpacket then |c.extended|
         else if c.remoteWindow <= c.remoteMaxpacket then c.remoteWindow else c.remoteMaxpacket;
    assert c.extended[0..] == c.extended;
  }

  /**
   * Everything one poll sends and changes: as much input as there is, as the window and as the packet size allow; the
   * end of it exactly when it is drained and no extended data can follow; then as much extended data.
   */
  lemma PollExact(c: Chan) returns (n: nat, eof: bool, m: nat)
    requires !c.closeSent && !c.closeRcvd
    ensures Polls(c, OutputPoll(c).0, OutputPoll(c).1, n, eof, m)
  {
    n, eof := PollInputExact(c);
    m := PollExtendedExact(PollInput(c).0);
    assert eof ==> m == 0;
  }

  // ----- Shutdown -----

  /** What an end that heard or said that it is over has closed. */
  predicate Stopped(c: Chan) {
    && (c.eofSent ==> c.istate == InputClosed)
    && (c.closeRcvd ==> c.istate == InputClosed)
    && (c.closeSent ==> c.istate == InputClosed && c.ostate == OutputClosed)
    && (c.eofRcvd || c.closeRcvd ==> c.ostate != OutputOpen)
  }

  lemma PerformStops(e: End, a: Act)
    requires Stopped(e.c)
    ensures Stopped(Perform(e, a).0.c)
    ensures e.c.istate == InputClosed ==>
              Perform(e, a).0.c.istate == InputClosed && Perform(e, a).0.log.got == e.log.got
  {
    match a
    case Poll => PollStops(e.c);
    case _ =>
  }

  lemma PollStops(c: Chan)
    requires Stopped(c)
    ensures Stopped(OutputPoll(c).0) && (c.istate == InputClosed ==> OutputPoll(c).0.istate == InputClosed)
  {
    if !c.closeSent && !c.closeRcvd { var _, _, _ := PollExact(c); }
  }

  lemma ReceiveStops(e: End, m: Msg)
    requires Stopped(e.c)
    ensures Stopped(Receive(e, m).0.c)
    ensures e.c.istate == InputClosed ==>
              Receive(e, m).0.c.istate == InputClosed && Receive(e, m).0.log.got == e.log.got
    ensures m == Eow || m == Close ==> Receive(e, m).0.c.istate != InputOpen
  {
  }

  /** A session whose writes failed has told the sender, or is about to. */
  ghost predicate Told(x: End, y: End, yx: seq<Msg>) {
    y.c.session && y.log.wfail ==> Eow in yx || x.c.istate != InputOpen
  }

  ghost predicate Stopping(s: Sys) {
    Stopped(s.a.c) && Stopped(s.b.c) && Told(s.a, s.b, s.ba) && Told(s.b, s.a, s.ab)
  }

  lemma ActTells(x: End, y: End, xy: seq<Msg>, yx: seq<Msg>, a: Act)
    requires Stopped(x.c) && Told(x, y, yx) && Told(y, x, xy)
    ensures var (x', ms) := Perform(x, a); Stopped(x'.c) && Told(x', y, yx) && Told(y, x', xy + ms)
  {
    PerformStops(x, a);
    var (x', ms) := Perform(x, a);
    assert x.c.istate != InputOpen ==> x'.c.istate != InputOpen;
    assert x'.c.session == x.c.session && (x'.log.wfail ==> x.log.wfail || !x.c.session || ms == [Eow]);
  }

  lemma DeliveryTells(x: End, y: End, xy: seq<Msg>, yx: seq<Msg>)
    requires Stopped(x.c) && Told(x, y, yx) && Told(y, x, xy) && yx != []
    ensures var (x', ms) := Receive(x, yx[0]); Stopped(x'.c) && Told(x', y, yx[1..]) && Told(y, x', xy + ms)
  {
    ReceiveStops(x, yx[0]);
    var (x', ms) := Receive(x, yx[0]);
    ReceiveKeepsSession(x, yx[0]);
    assert yx == [yx[0]] + yx[1..];
  }

  lemma ReceiveKeepsSession(e: End, m: Msg)
    ensures var e' := Receive(e, m).0;
            && e'.c.session == e.c.session && e'.log.wfail == e.log.wfail
            && (e.c.istate != InputOpen ==> e'.c.istate != InputOpen)
  {
    match m
    case Data(d) =>
    case ExtData(d) =>
    case Close => CloseIsTaken(e);
    case _ =>
  }

  lemma StepStops(s: Sys, ev: Event)
    requires Stopping(s)
    ensures Stopping(Step(s, ev))
  {
    match ev
    case ActA(act) => ActTells(s.a, s.b, s.ab, s.ba, act);
    case ActB(act) => ActTells(s.b, s.a, s.ba, s.ab, act);
    case DeliverToA => if s.ba != [] { DeliveryTells(s.a, s.b, s.ab, s.ba); }
    case DeliverToB => if s.ab != [] { DeliveryTells(s.b, s.a, s.ba, s.ab); }
  }

  lemma {:induction false} RunStops(s: Sys, evs: seq<Event>)
    requires Stopping(s)
    ensures Stopping(Run(s, evs))
    decreases |evs|
  {
    if evs != [] {
      RunStops(s, evs[..|evs| - 1]);
      StepStops(Run(s, evs[..|evs| - 1]), evs[|evs| - 1]);
    }
  }

  /**
   * In every reachable state: an end that sent its EOF or got the peer's CLOSE sends no more input, one that got an
   * EOF or a CLOSE does not take output as open, and the failed write of a session is known to the other end once
   * nothing is under way.
   */
  lemma EndsStop(s: Sys)
    requires Reachable(s)
    ensures Stopped(s.a.c) && Stopped(s.b.c) && Told(s.a, s.b, s.ba) && Told(s.b, s.a, s.ab)
  {
    var s0: Sys, evs: seq<Event> :| Init(s0) && s == Run(s0, evs);
    RunStops(s0, evs);
  }

  /** Input that closed stays closed, and no byte is read any more. */
  lemma {:induction false} ClosedStaysClosed(s: Sys, evs: seq<Event>)
    requires Stopping(s) && s.a.c.istate == InputClosed
    ensures Run(s, evs).a.c.istate == InputClosed && Run(s, evs).a.log.got == s.a.log.got
    decreases |evs|
  {
    if evs != [] {
      var s1, ev := Run(s, evs[..|evs| - 1]), evs[|evs| - 1];
      ClosedStaysClosed(s, evs[..|evs| - 1]);
      RunStops(s, evs[..|evs| - 1]);
      match ev
      case ActA(act) => PerformStops(s1.a, act);
      case DeliverToA => if s1.ba != [] { ReceiveStops(s1.a, s1.ba[0]); }
      case _ =>
    }
  }

  // ----- An orderly shutdown -----

  /** Open both ways, with nothing buffered and no descriptor to read extended data from. */
  predicate AtRest(c: Chan) {
    && c.istate == InputOpen && c.ostate == OutputOpen && !c.closeSent && !c.closeRcvd && !c.eofSent && !c.eofRcvd
    && c.input == [] && c.output == [] && c.extended == [] && !(c.extUsage == ExtRead && c.efdOpen)
  }

  /** The end of the input, read and polled, is announced once. */
  lemma EofIsSent(e: End)
    requires e.c.istate == InputOpen && e.c.input == [] && e.c.extended == [] && !e.c.closeSent && !e.c.closeRcvd
    requires !(e.c.extUsage == ExtRead && e.c.efdOpen)
    ensures Perform(Perform(e, RfdFails).0, Poll)
            == (e.(c := e.c.(istate := InputClosed, eofSent := true)), [Eof])
    ensures Perform(e, RfdFails).1 == []
  {
    var c1 := e.c.(istate := InputWaitDrain);
    var n, eof, m := PollExact(c1);
    assert Perform(e, RfdFails).0 == e.(c := c1);
    assert eof && n == 0 && m == 0;
    assert OutputPoll(c1).0 == e.c.(istate := InputClosed, eofSent := true);
    assert [] + [Eof] + [] == [Eof];
  }

  /** An EOF for an open output with nothing to write closes it at once. */
  lemma EofIsTaken(e: End)
    requires e.c.ostate == OutputOpen && e.c.output == [] && e.c.extended == []
    ensures Receive(e, Eof) == (e.(c := e.c.(eofRcvd := true, ostate := OutputClosed)), [])
  {
  }

  /** A CLOSE stops the input, leaves the output to drain, and gets the EOF that was still owed. */
  lemma CloseIsTaken(e: End)
    ensures Receive(e, Close)
            == (e.(c := e.c.(closeRcvd := true, istate := InputClosed,
                             ostate := if e.c.ostate == OutputOpen then OutputWaitDrain else e.c.ostate,
                             eofSent := e.c.eofSent || e.c.istate == InputWaitDrain)),
                if e.c.istate == InputWaitDrain then [Eof] else [])
  {
  }

  lemma CloseIsSent(e: End)
    ensures Perform(e, Collect) ==
            if e.c.istate == InputClosed && e.c.ostate == OutputClosed && !e.c.closeSent
            then (e.(c := e.c.(closeSent := true)), [Close]) else (e, [])
  {
  }

  /** `x` announces its end and `y` hears of it. */
  function HalfClose(s: Sys): Sys {
    Step(Step(Step(s, ActA(RfdFails)), ActA(Poll)), DeliverToB)
  }

  /** Each end's input ends, each collects the channel, and each hears the other's CLOSE. */
  function Shutdown(s: Sys): Sys {
    Step(Step(Step(Step(Swap(HalfClose(Swap(HalfClose(s)))), ActA(Collect)), ActB(Collect)), DeliverToA), DeliverToB)
  }

  lemma HalfClosed(s: Sys)
    requires s.ab == [] && s.a.c.istate == InputOpen && s.a.c.input == [] && s.a.c.extended == []
    requires !s.a.c.closeSent && !s.a.c.closeRcvd && !(s.a.c.extUsage == ExtRead && s.a.c.efdOpen)
    requires s.b.c.ostate == OutputOpen && s.b.c.output == [] && s.b.c.extended == []
    ensures HalfClose(s) == s.(a := s.a.(c := s.a.c.(istate := InputClosed, eofSent := true)),
                               b := s.b.(c := s.b.c.(eofRcvd := true, ostate := OutputClosed)))
  {
    EofIsSent(s.a);
    EofIsTaken(s.b);
    assert s.ab + [] + [Eof] == [Eof] && [Eof][1..] == [];
    assert s.ba + [] == s.ba;
  }

  predicate Over(c: Chan) {
    c.istate == InputClosed && c.ostate == OutputClosed && c.closeSent && c.closeRcvd && c.eofSent && c.eofRcvd
  }

  /** A channel at rest shuts down completely: both ends have sent and received EOF and CLOSE, once each. */
  lemma ShutdownIsOrderly(s: Sys)
    requires s.ab == [] && s.ba == [] && AtRest(s.a.c) && AtRest(s.b.c)
    ensures var s' := Shutdown(s);
            && Over(s'.a.c) && Over(s'.b.c) && s'.ab == [] && s'.ba == []
            && s'.a.log == s.a.log && s'.b.log == s.b.log
  {
    HalfClosed(s);
    var s1 := Swap(HalfClose(s));
    HalfClosed(s1);
    var s2 := Swap(HalfClose(s1));
    assert s2.ab == [] && s2.ba == [];
    CloseIsSent(s2.a);
    CloseIsSent(s2.b);
    var s3 := Step(Step(s2, ActA(Collect)), ActB(Collect));
    assert s3.ab == [Close] && s3.ba == [Close];
    CloseIsTaken(s3.a);
    CloseIsTaken(s3.b);
    assert [Close][1..] == [] && [Close] + [] == [Close];
  }
}
