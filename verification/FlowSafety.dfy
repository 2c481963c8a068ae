/** Invariants of both directions of a channel over every run of its two ends. */
module FlowSafety {
  import opened Bytes
  import opened ChannelEnd
  import opened FlowControl

  // ----- What receiving a message does -----

  /** As the receiver of the direction the message travelled in. */
  ghost predicate Takes(e: End, e': End, m: Msg) {
    && e'.c.localWindow + LenOf(m) + e.log.dropped == e.c.localWindow + e'.log.dropped
    && e'.c.localWindowMax == e.c.localWindowMax && e'.c.extUsage == e.c.extUsage
    && e'.log.dropped >= e.log.dropped && e'.log.refused == e.log.refused && e'.log.wfail == e.log.wfail
    && e'.log.put == e.log.put && e'.log.eput == e.log.eput
    && (e.c.ostate == OutputOpen || !m.Data? ==> e'.c.output == if m.Data? then e.c.output + m.d else e.c.output)
    && (e.c.extUsage == ExtWrite && e'.log.dropped == e.log.dropped ==>
          e'.c.extended == if m.ExtData? then e.c.extended + m.d else e.c.extended)
    && (e'.c.eofRcvd <==> e.c.eofRcvd || m.Eof?) && (e'.c.closeRcvd <==> e.c.closeRcvd || m.Close?)
  }

  /** As the sender of the other direction. */
  ghost predicate Learns(e: End, e': End, m: Msg, ms: seq<Msg>) {
    && e'.c.remoteWindow == e.c.remoteWindow + AdjustOf(m)
    && e'.log.got == e.log.got && e'.c.input == e.c.input && e'.log.egot == e.log.egot
    && e'.c.extUsage == e.c.extUsage && (e.c.extUsage == ExtRead ==> e'.c.extended == e.c.extended)
    && (ms == [] || (ms == [Eof] && e'.c.eofSent && e.c.istate == InputWaitDrain && m.Close?))
    && (e.c.eofSent ==> e'.c.eofSent) && (e'.c.eofSent ==> e.c.eofSent || ms == [Eof])
       && e'.c.closeSent == e.c.closeSent
    && (e'.c.istate == InputClosed ==> e.c.istate == InputClosed || m.Close? || m.Eow?)
    && (ExtDone(e'.c) <==> ExtDone(e.c))
  }

  ghost predicate ReceivedOk(e: End, m: Msg) {
    var (e', ms) := Receive(e, m);
    EndInv(e') && Takes(e, e', m) && Learns(e, e', m, ms)
  }

  lemma DataBuffered(e: End, d: seq<byte>)
    requires EndInv(e) && |d| <= e.c.localWindow && e.c.ostate == OutputOpen
    ensures ReceivedOk(e, Data(d))
  {
    assert Receive(e, Data(d)).0 == e.(c := e.c.(localWindow := e.c.localWindow - |d|, output := e.c.output + d));
  }

  lemma DataSwallowed(e: End, d: seq<byte>)
    requires EndInv(e) && |d| <= e.c.localWindow && e.c.ostate != OutputOpen
    ensures ReceivedOk(e, Data(d))
  {
    assert Receive(e, Data(d)).0 == e.(c := e.c.(localWindow := e.c.localWindow - |d|,
                                                 localConsumed := e.c.localConsumed + |d|));
  }

  lemma ReceiveExtDataOk(e: End, d: seq<byte>)
    requires EndInv(e) && |d| <= e.c.localWindow && !e.c.eofRcvd && !e.c.closeRcvd
    ensures ReceivedOk(e, ExtData(d))
  {
  }

  lemma ReceiveAdjustOk(e: End, n: uint32)
    requires EndInv(e) && e.c.remoteWindow + n < U32
    ensures ReceivedOk(e, WindowAdjust(n))
  {
  }

  lemma ReceiveEofOk(e: End)
    requires EndInv(e)
    ensures ReceivedOk(e, Eof)
  {
  }

  lemma ReceiveCloseOk(e: End)
    requires EndInv(e)
    ensures ReceivedOk(e, Close)
  {
    var (c', ms) := RcvdClose(e.c);
    assert Receive(e, Close) == (e.(c := c'), ms);
  }

  lemma ReceiveEowOk(e: End)
    requires EndInv(e)
    ensures ReceivedOk(e, Eow)
  {
  }

  lemma ReceiveOk(e: End, m: Msg)
    requires EndInv(e) && LenOf(m) <= e.c.localWindow && (m.ExtData? ==> !e.c.eofRcvd && !e.c.closeRcvd)
    requires e.c.remoteWindow + AdjustOf(m) < U32
    ensures ReceivedOk(e, m)
  {
    match m
    case Data(d) => if e.c.ostate == OutputOpen { DataBuffered(e, d); } else { DataSwallowed(e, d); }
    case ExtData(d) => ReceiveExtDataOk(e, d);
    case WindowAdjust(n) => ReceiveAdjustOk(e, n);
    case Eof => ReceiveEofOk(e);
    case Close => ReceiveCloseOk(e);
    case Eow => ReceiveEowOk(e);
  }

  // ----- One direction: `x` sends payload to `y` -----

  /**
   * The window `y` believes it granted is what `x` may still send, what is under way either way, and what `y` ignored.
   */
  predicate WindowExact(x: End, y: End, xy: seq<Msg>, yx: seq<Msg>) {
    y.c.localWindow == x.c.remoteWindow + Charge(xy) + Credit(yx) + y.log.dropped
  }

  /** No payload is queued behind the announcement that there is none. */
  ghost predicate Ordered(q: seq<Msg>) {
    forall i, j :: 0 <= i < j < |q| && Closing(q[i]) ==> !Payload(q[j])
  }

  ghost predicate Signals(x: End, y: End, xy: seq<Msg>, yx: seq<Msg>) {
    && Ordered(xy)
    && (Eof in xy || y.c.eofRcvd ==> x.c.eofSent)
    && (Close in xy || y.c.closeRcvd ==> x.c.closeSent)
    && (y.c.eofRcvd || y.c.closeRcvd ==> !HasPayload(xy))
    && (Eow in yx ==> y.log.wfail)
  }

  /** The sender stops for a reason: it announced the end after sending everything, or the receiver failed to write. */
  predicate Completes(x: End, y: End) {
    && (x.c.istate == InputClosed ==> x.c.eofSent || y.log.wfail)
    && (x.c.eofSent ==> x.c.input == [] || y.log.wfail)
    && (x.c.eofSent ==> ExtDone(x.c) || y.log.wfail)
  }

  /** Nothing is lost, duplicated or reordered on the way to a receiver whose writes succeed. */
  ghost predicate Streams(x: End, y: End, xy: seq<Msg>) {
    && y.log.put <= x.log.got
    && (!y.log.wfail ==> x.log.got == y.log.put + y.c.output + DataIn(xy) + x.c.input)
    && (x.c.extUsage == ExtRead && y.c.extUsage == ExtWrite && y.log.dropped == 0 ==>
          x.log.egot == y.log.eput + y.c.extended + ExtDataIn(xy) + x.c.extended)
  }

  ghost predicate Direction(x: End, y: End, xy: seq<Msg>, yx: seq<Msg>) {
    && WindowExact(x, y, xy, yx)
    && Signals(x, y, xy, yx)
    && Completes(x, y)
    && Streams(x, y, xy)
    && !y.log.refused
  }

  ghost predicate Inv(s: Sys) {
    && EndInv(s.a) && EndInv(s.b)
    && Direction(s.a, s.b, s.ab, s.ba)
    && Direction(s.b, s.a, s.ba, s.ab)
  }

  // ----- The sender acts -----

  lemma PayloadOfConcat(p: seq<Msg>, q: seq<Msg>)
    ensures HasPayload(p + q) <==> HasPayload(p) || HasPayload(q)
  {
    assert forall i :: 0 <= i < |p| ==> (p + q)[i] == p[i];
    assert forall i :: 0 <= i < |q| ==> (p + q)[|p| + i] == q[i];
  }

  lemma OrderedConcat(p: seq<Msg>, q: seq<Msg>)
    requires Ordered(p) && (Eof in p || Close in p ==> !HasPayload(q))
    requires forall i :: 0 <= i < |q| && Closing(q[i]) ==> |q| == 1
    ensures Ordered(p + q)
  {
    var r := p + q;
    assert forall i :: 0 <= i < |p| ==> r[i] == p[i] && p[i] in p;
    assert forall i :: |p| <= i < |r| ==> r[i] == q[i - |p|];
    assert forall i :: 0 <= i < |p| && Closing(p[i]) ==> Eof in p || Close in p;
  }

  lemma SenderActsSignals(x: End, x': End, y: End, xy: seq<Msg>, yx: seq<Msg>, ms: seq<Msg>)
    requires Coherent(x) && Signals(x, y, xy, yx) && Announces(x, x', ms)
    ensures Signals(x', y, xy + ms, yx)
  {
    OrderedConcat(xy, ms);
    PayloadOfConcat(xy, ms);
  }

  /** Moving bytes from the end of a stream's description into its middle does not change the stream. */
  lemma Extend(stream: seq<byte>, front: seq<byte>, i: seq<byte>, more: seq<byte>, m: seq<byte>, i': seq<byte>)
    requires stream == front + i && i + more == m + i'
    ensures stream + more == front + m + i'
  {
    assert front + i + more == front + (i + more);
    assert front + (m + i') == front + m + i';
  }

  lemma SenderActsData(x: End, x': End, y: End, xy: seq<Msg>, ms: seq<Msg>)
    requires Streams(x, y, xy) && Sends(x, x', ms) && !y.log.wfail
    ensures x'.log.got == y.log.put + y.c.output + DataIn(xy + ms) + x'.c.input
  {
    ConcatData(xy, ms);
    var more := x'.log.got[|x.log.got|..];
    var front := y.log.put + y.c.output;
    assert x'.log.got == x.log.got + more;
    Extend(x.log.got, front + DataIn(xy), x.c.input, more, DataIn(ms), x'.c.input);
    assert front + DataIn(xy) + DataIn(ms) == front + (DataIn(xy) + DataIn(ms));
  }

  lemma SenderActsExtData(x: End, x': End, y: End, xy: seq<Msg>, ms: seq<Msg>)
    requires Streams(x, y, xy) && Sends(x, x', ms)
    requires x.c.extUsage == ExtRead && y.c.extUsage == ExtWrite && y.log.dropped == 0
    ensures x'.log.egot == y.log.eput + y.c.extended + ExtDataIn(xy + ms) + x'.c.extended
  {
    ConcatExtData(xy, ms);
    var more := x'.log.egot[|x.log.egot|..];
    var front := y.log.eput + y.c.extended;
    assert x'.log.egot == x.log.egot + more;
    Extend(x.log.egot, front + ExtDataIn(xy), x.c.extended, more, ExtDataIn(ms), x'.c.extended);
    assert front + ExtDataIn(xy) + ExtDataIn(ms) == front + (ExtDataIn(xy) + ExtDataIn(ms));
  }

  lemma SenderActsStreams(x: End, x': End, y: End, xy: seq<Msg>, ms: seq<Msg>)
    requires Streams(x, y, xy) && Sends(x, x', ms)
    ensures Streams(x', y, xy + ms)
  {
    if !y.log.wfail { SenderActsData(x, x', y, xy, ms); }
    if x.c.extUsage == ExtRead && y.c.extUsage == ExtWrite && y.log.dropped == 0 {
      SenderActsExtData(x, x', y, xy, ms);
    }
  }

  lemma SenderActs(x: End, x': End, y: End, xy: seq<Msg>, yx: seq<Msg>, ms: seq<Msg>)
    requires Coherent(x) && Direction(x, y, xy, yx) && LocalOk(x, x', ms)
    ensures Direction(x', y, xy + ms, yx)
  {
    ConcatNumbers(xy, ms);
    SenderActsSignals(x, x', y, xy, yx, ms);
    SenderActsStreams(x, x', y, xy, ms);
  }

  // ----- The receiver acts -----

  lemma ReceiverActsStreams(x: End, y: End, y': End, xy: seq<Msg>, ms: seq<Msg>)
    requires Streams(x, y, xy) && Holds(y, y', ms)
    ensures Streams(x, y', xy)
  {
    if !y'.log.wfail {
      assert x.log.got == y'.log.put + y'.c.output + DataIn(xy) + x.c.input;
    }
  }

  lemma ReceiverActs(x: End, y: End, y': End, xy: seq<Msg>, yx: seq<Msg>, ms: seq<Msg>)
    requires Direction(x, y, xy, yx) && LocalOk(y, y', ms)
    ensures Direction(x, y', xy, yx + ms)
  {
    ConcatNumbers(yx, ms);
    ReceiverActsStreams(x, y, y', xy, ms);
  }

  // ----- The receiver takes a message -----

  /** The window covers what is in flight, so the head of the queue is never refused. */
  lemma HeadIsAcceptable(x: End, y: End, xy: seq<Msg>, yx: seq<Msg>)
    requires Direction(x, y, xy, yx) && xy != []
    ensures LenOf(xy[0]) <= y.c.localWindow
    ensures xy[0].ExtData? ==> !y.c.eofRcvd && !y.c.closeRcvd
    ensures Payload(xy[0]) && !y.log.wfail && Coherent(y) ==> y.c.ostate == OutputOpen
  {
    assert Payload(xy[0]) ==> HasPayload(xy);
  }

  lemma ReceiverTakesSignals(x: End, y: End, y': End, xy: seq<Msg>, yx: seq<Msg>, ms: seq<Msg>)
    requires xy != [] && Signals(x, y, xy, yx) && Takes(y, y', xy[0]) && Eow !in ms
    ensures Signals(x, y', xy[1..], yx + ms)
  {
    var q := xy[1..];
    assert forall i :: 0 <= i < |q| ==> q[i] == xy[i + 1] && q[i] in xy;
    assert xy[0] in xy;
    if HasPayload(q) {
      var i :| 0 <= i < |q| && Payload(q[i]);
      assert Payload(xy[i + 1]) && HasPayload(xy);
    }
  }

  lemma Shift(p: seq<byte>, o: seq<byte>, m: seq<byte>, q: seq<byte>, i: seq<byte>)
    ensures p + o + (m + q) + i == p + (o + m) + q + i
  {
  }

  lemma HeadOfStreams(xy: seq<Msg>)
    requires xy != []
    ensures DataIn(xy) == (if xy[0].Data? then xy[0].d else []) + DataIn(xy[1..])
    ensures ExtDataIn(xy) == (if xy[0].ExtData? then xy[0].d else []) + ExtDataIn(xy[1..])
  {
  }

  lemma ReceiverTakesStreams(x: End, y: End, y': End, xy: seq<Msg>)
    requires xy != [] && Streams(x, y, xy) && Takes(y, y', xy[0])
    requires xy[0].Data? && !y.log.wfail ==> y.c.ostate == OutputOpen
    ensures Streams(x, y', xy[1..])
  {
    var m, q := xy[0], xy[1..];
    HeadOfStreams(xy);
    var d, e := if m.Data? then m.d else [], if m.ExtData? then m.d else [];
    Shift(y.log.put, y.c.output, d, DataIn(q), x.c.input);
    Shift(y.log.eput, y.c.extended, e, ExtDataIn(q), x.c.extended);
    assert y.c.output + [] == y.c.output && y.c.extended + [] == y.c.extended;
  }

  lemma ReceiverTakes(x: End, y: End, y': End, xy: seq<Msg>, yx: seq<Msg>, ms: seq<Msg>)
    requires xy != [] && Direction(x, y, xy, yx) && Coherent(y) && Takes(y, y', xy[0]) && Learns(y, y', xy[0], ms)
    ensures Direction(x, y', xy[1..], yx + ms)
  {
    HeadIsAcceptable(x, y, xy, yx);
    ConcatNumbers(yx, ms);
    if ms != [] { One(Eof); }
    ReceiverTakesSignals(x, y, y', xy, yx, ms);
    ReceiverTakesStreams(x, y, y', xy);
  }

  // ----- The sender learns from a message of the other direction -----

  lemma SenderLearnsSignals(x: End, x': End, y: End, xy: seq<Msg>, yx: seq<Msg>, ms: seq<Msg>)
    requires yx != [] && Signals(x, y, xy, yx) && Learns(x, x', yx[0], ms) && Coherent(x)
    ensures Signals(x', y, xy + ms, yx[1..])
  {
    assert forall i :: 0 <= i < |yx| - 1 ==> yx[1..][i] == yx[i + 1];
    assert !HasPayload(ms);
    OrderedConcat(xy, ms);
    PayloadOfConcat(xy, ms);
  }

  /** A close or an end-of-write from a receiver that could still write never cuts the sender short. */
  lemma SenderLearnsCompletes(x: End, x': End, y: End, xy: seq<Msg>, yx: seq<Msg>, ms: seq<Msg>)
    requires yx != [] && Direction(x, y, xy, yx) && Signals(y, x, yx, xy)
    requires Coherent(x) && Coherent(y) && Learns(x, x', yx[0], ms)
    ensures Completes(x', y)
  {
    assert yx[0] in yx;
    if yx[0].Close? && !y.log.wfail {
      assert y.c.closeSent && (y.c.eofRcvd || y.c.closeRcvd);
      assert x.c.istate == InputClosed;
    }
  }

  lemma SenderLearns(x: End, x': End, y: End, xy: seq<Msg>, yx: seq<Msg>, ms: seq<Msg>)
    requires yx != [] && Direction(x, y, xy, yx) && Signals(y, x, yx, xy)
    requires Coherent(x) && Coherent(y) && Learns(x, x', yx[0], ms)
    ensures Direction(x', y, xy + ms, yx[1..])
  {
    Concat(xy, ms);
    if ms != [] { One(Eof); }
    SenderLearnsSignals(x, x', y, xy, yx, ms);
    SenderLearnsCompletes(x, x', y, xy, yx, ms);
    assert DataIn(xy) + [] == DataIn(xy) && ExtDataIn(xy) + [] == ExtDataIn(xy);
  }

  /** A window adjustment in flight never makes the sender's window wrap around. */
  lemma AdjustFits(x: End, y: End, xy: seq<Msg>, yx: seq<Msg>)
    requires yx != [] && WindowExact(x, y, xy, yx)
    ensures x.c.remoteWindow + AdjustOf(yx[0]) < U32
  {
  }

  // ----- Steps and runs -----

  lemma ActKeeps(x: End, y: End, xy: seq<Msg>, yx: seq<Msg>, a: Act)
    requires EndInv(x) && Direction(x, y, xy, yx) && Direction(y, x, yx, xy)
    ensures var (x', ms) := Perform(x, a);
            EndInv(x') && Direction(x', y, xy + ms, yx) && Direction(y, x', yx, xy + ms)
  {
    var (x', ms) := Perform(x, a);
    PerformOk(x, a);
    SenderActs(x, x', y, xy, yx, ms);
    ReceiverActs(y, x, x', yx, xy, ms);
  }

  lemma DeliveryKeeps(x: End, y: End, xy: seq<Msg>, yx: seq<Msg>)
    requires EndInv(x) && EndInv(y) && Direction(x, y, xy, yx) && Direction(y, x, yx, xy) && xy != []
    ensures var (y', ms) := Receive(y, xy[0]);
            EndInv(y') && Direction(x, y', xy[1..], yx + ms) && Direction(y', x, yx + ms, xy[1..])
  {
    var (y', ms) := Receive(y, xy[0]);
    HeadIsAcceptable(x, y, xy, yx);
    AdjustFits(y, x, yx, xy);
    ReceiveOk(y, xy[0]);
    ReceiverTakes(x, y, y', xy, yx, ms);
    SenderLearns(y, y', x, yx, xy, ms);
  }

  /** Every step keeps the invariants of both ends and both directions. */
  lemma StepKeeps(s: Sys, ev: Event)
    requires Inv(s)
    ensures Inv(Step(s, ev))
  {
    match ev
    case ActA(act) => ActKeeps(s.a, s.b, s.ab, s.ba, act);
    case ActB(act) => ActKeeps(s.b, s.a, s.ba, s.ab, act);
    case DeliverToA => if s.ba != [] { DeliveryKeeps(s.b, s.a, s.ba, s.ab); }
    case DeliverToB => if s.ab != [] { DeliveryKeeps(s.a, s.b, s.ab, s.ba); }
  }

  lemma InitHolds(s: Sys)
    requires Init(s)
    ensures Inv(s)
  {
    FreshDirection(s.a, s.b, s.ab, s.ba);
    FreshDirection(s.b, s.a, s.ba, s.ab);
  }

  lemma FreshDirection(x: End, y: End, xy: seq<Msg>, yx: seq<Msg>)
    requires FreshEnd(x) && FreshEnd(y) && Announced(x, y, yx) && Announced(y, x, xy)
    ensures Direction(x, y, xy, yx)
  {
    if xy != [] { One(xy[0]); }
    if yx != [] { One(yx[0]); }
    assert DataIn(xy) == [] && ExtDataIn(xy) == [] && !HasPayload(xy);
  }

  lemma {:induction false} Stays(s: Sys, evs: seq<Event>)
    requires Inv(s)
    ensures Inv(Run(s, evs))
    decreases |evs|
  {
    if evs != [] {
      Stays(s, evs[..|evs| - 1]);
      StepKeeps(Run(s, evs[..|evs| - 1]), evs[|evs| - 1]);
    }
  }

  // ----- Main results, for every run from a fresh channel -----

  function Swap(s: Sys): Sys { Sys(s.b, s.a, s.ba, s.ab) }

  ghost predicate Reachable(s: Sys) {
    exists s0: Sys, evs: seq<Event> :: Init(s0) && s == Run(s0, evs)
  }

  lemma ReachableInv(s: Sys)
    requires Reachable(s)
    ensures Inv(s) && Inv(Swap(s))
  {
    var s0: Sys, evs: seq<Event> :| Init(s0) && s == Run(s0, evs);
    InitHolds(s0);
    Stays(s0, evs);
  }

  /**
   * The receiver's window covers what the sender may send and what is under way, with equality while no
   * extended data was ignored; so the branches for too much data and for data after EOF are never taken.
   */
  lemma WindowIsNeverOverrun(s: Sys)
    requires Reachable(s)
    ensures s.b.c.localWindow >= s.a.c.remoteWindow + Charge(s.ab) + Credit(s.ba)
    ensures s.b.c.localWindow == s.a.c.remoteWindow + Charge(s.ab) + Credit(s.ba) <==> s.b.log.dropped == 0
    ensures s.a.c.localWindow >= s.b.c.remoteWindow + Charge(s.ba) + Credit(s.ab)
    ensures s.a.c.localWindow == s.b.c.remoteWindow + Charge(s.ba) + Credit(s.ab) <==> s.a.log.dropped == 0
    ensures !s.a.log.refused && !s.b.log.refused
  {
    ReachableInv(s);
  }

  /** Every byte of the window `y` announced to `x` is somewhere. */
  predicate Conserved(x: End, y: End, xy: seq<Msg>, yx: seq<Msg>) {
    var onTheWay := x.c.remoteWindow + Charge(xy) + Credit(yx);
    onTheWay + y.c.localConsumed + |y.c.output| + Held(y.c) + y.log.lost + y.log.dropped == y.c.localWindowMax
  }

  /** Every byte of both announced windows is accounted for; hence no counter ever wraps. */
  lemma WindowIsConserved(s: Sys)
    requires Reachable(s)
    ensures Conserved(s.a, s.b, s.ab, s.ba) && Conserved(s.b, s.a, s.ba, s.ab)
  {
    ReachableInv(s);
  }

  /**
   * In both directions, the receiver writes a prefix of what the sender read; while no write failed, the rest is all
   * on the way, in order. The same for extended data that was not ignored.
   */
  lemma StreamIsPreserved(s: Sys)
    requires Reachable(s)
    ensures Streams(s.a, s.b, s.ab) && Streams(s.b, s.a, s.ba)
  {
    ReachableInv(s);
  }

  /** Everything the sender read was written, and so was its extended data if it was neither ignored nor cut off. */
  predicate Delivered(x: End, y: End) {
    && y.log.put == x.log.got
    && (x.c.extUsage == ExtRead && y.c.extUsage == ExtWrite && y.c.efdOpen && y.log.dropped == 0 ==>
        y.log.eput == x.log.egot)
  }

  /** An output side that closed without a write error has delivered everything. */
  lemma CloseMeansDelivered(s: Sys)
    requires Reachable(s)
    ensures s.b.c.ostate == OutputClosed && !s.b.log.wfail ==> Delivered(s.a, s.b)
    ensures s.a.c.ostate == OutputClosed && !s.a.log.wfail ==> Delivered(s.b, s.a)
  {
    ReachableInv(s);
    if s.b.c.ostate == OutputClosed && !s.b.log.wfail { ClosedDelivers(s.a, s.b, s.ab, s.ba); }
    if s.a.c.ostate == OutputClosed && !s.a.log.wfail { ClosedDelivers(s.b, s.a, s.ba, s.ab); }
  }

  lemma ClosedDelivers(x: End, y: End, xy: seq<Msg>, yx: seq<Msg>)
    requires EndInv(x) && EndInv(y) && Direction(x, y, xy, yx) && y.c.ostate == OutputClosed && !y.log.wfail
    ensures Delivered(x, y)
  {
    NoPayloadNoBytes(xy);
    assert x.c.istate == InputClosed && x.c.eofSent;
  }

  // ----- Whether the window reopens -----

  /** The receiver checks its window and the sender hears of it. */
  function Refresh(s: Sys): Sys {
    Step(Step(s, ActB(AdjustWindow)), DeliverToA)
  }

  /** The guard of `channel_check_window`. */
  predicate Due(c: Chan) {
    && !c.closeSent && !c.closeRcvd && c.localConsumed > 0
    && (Sub32(c.localWindowMax, c.localWindow) > (c.localMaxpacket * 3) % U32 || c.localWindow < c.localWindowMax / 2)
  }

  /** Extended data that no descriptor will take any more. */
  function Stuck(c: Chan): nat { if c.efdOpen then 0 else Held(c) }

  /** The receiver can write nothing more, and nothing is under way. */
  predicate Quiescent(s: Sys) {
    s.ab == [] && s.ba == [] && s.b.c.output == [] && Held(s.b.c) == Stuck(s.b.c)
  }

  /** What a quiescent receiver leaves to the sender. */
  function WindowLeft(e: End): int {
    if Due(e.c) then e.c.localWindowMax - e.log.lost - e.log.dropped - Stuck(e.c) else e.c.localWindow - e.log.dropped
  }

  /** Exactly which window the sender has after a quiescent receiver checked its own. */
  lemma WindowAfterRefresh(s: Sys)
    requires Reachable(s) && Quiescent(s)
    ensures Refresh(s).a.c.remoteWindow == WindowLeft(s.b)
  {
    ReachableInv(s);
    RefreshExact(s);
  }

  lemma RefreshExact(s: Sys)
    requires Inv(s) && Quiescent(s)
    ensures Refresh(s).a.c.remoteWindow == WindowLeft(s.b)
    ensures WindowLeft(s.b) == 0 <==> !Due(s.b.c) && s.a.c.remoteWindow == 0
  {
    var s1 := Step(s, ActB(AdjustWindow));
    StepKeeps(s, ActB(AdjustWindow));
    var (c', ms) := CheckWindow(s.b.c);
    assert s1.ba == ms;
    assert Due(s.b.c) <==> ms != [];
    if ms != [] {
      One(ms[0]);
      StepKeeps(s1, DeliverToA);
    }
  }

  /**
   * No window deadlock while nothing was lost: the sender has at least half of the window, less what is gone for good.
   */
  lemma WindowReopens(s: Sys)
    requires Reachable(s) && Quiescent(s) && !s.b.c.closeSent && !s.b.c.closeRcvd
    ensures Refresh(s).a.c.remoteWindow + s.b.log.lost + s.b.log.dropped + Stuck(s.b.c) >= s.b.c.localWindowMax / 2
  {
    ReachableInv(s);
    RefreshExact(s);
  }

  // ----- Starvation -----

  /** Nothing to write and no window to give. */
  predicate Idle(c: Chan) { c.output == [] && Held(c) == Stuck(c) && !Due(c) }

  /** Nothing the sender may send or has under way, and nothing the receiver could give back. */
  ghost predicate Starved(s: Sys) {
    Inv(s) && s.a.c.remoteWindow == 0 && Charge(s.ab) == 0 && Credit(s.ba) == 0 && Idle(s.b.c)
  }

  lemma StarvedActA(s: Sys, act: Act)
    requires Starved(s)
    ensures Starved(Step(s, ActA(act)))
  {
    StepKeeps(s, ActA(act));
    var (a', ms) := Perform(s.a, act);
    PerformOk(s.a, act);
    ConcatNumbers(s.ab, ms);
  }

  lemma StarvedActB(s: Sys, act: Act)
    requires Starved(s)
    ensures Starved(Step(s, ActB(act)))
  {
    StepKeeps(s, ActB(act));
    var (b', ms) := Perform(s.b, act);
    StarvedReceiverActs(s.b, act);
    PerformOk(s.b, act);
    ConcatNumbers(s.ba, ms);
  }

  /** What a local action leaves of a receiver that has nothing to write and no window to give. */
  lemma StarvedReceiverActs(e: End, act: Act)
    requires EndInv(e) && Idle(e.c)
    ensures var (e', ms) := Perform(e, act); Idle(e'.c) && e'.c.localWindow == e.c.localWindow
  {
    match act
    case Poll => PollKeepsReceiver(e.c);
    case _ =>
  }

  /** The fields that matter to an end as a receiver are the same. */
  predicate SameReceiver(c: Chan, c': Chan) {
    && c'.output == c.output && c'.efdOpen == c.efdOpen && c'.extUsage == c.extUsage && Held(c') == Held(c)
    && c'.localWindow == c.localWindow && c'.localConsumed == c.localConsumed
    && c'.localWindowMax == c.localWindowMax && c'.localMaxpacket == c.localMaxpacket
    && c'.closeSent == c.closeSent && c'.closeRcvd == c.closeRcvd
  }

  lemma PollInputKeepsReceiver(c: Chan)
    ensures SameReceiver(c, PollInput(c).0)
  {
    var c' := PollInput(c).0;
    SenderFieldsOnly(c, c'.input, c'.remoteWindow, c'.istate, c'.eofSent);
    if c.istate != InputClosed && c.input != [] {
      assert c' == c.(input := c'.input, remoteWindow := c'.remoteWindow);
    }
  }

  lemma SenderFieldsOnly(c: Chan, input: seq<byte>, window: uint32, istate: IState, eofSent: bool)
    ensures SameReceiver(c, c.(input := input, remoteWindow := window, istate := istate, eofSent := eofSent))
    ensures SameReceiver(c, c.(input := input, remoteWindow := window))
  {
  }

  lemma PollExtendedKeepsReceiver(c: Chan)
    ensures SameReceiver(c, PollExtended(c).0)
  {
  }

  lemma PollKeepsReceiver(c: Chan)
    ensures SameReceiver(c, OutputPoll(c).0)
  {
    PollInputKeepsReceiver(c);
    PollExtendedKeepsReceiver(PollInput(c).0);
  }

  lemma StarvedToA(s: Sys)
    requires Starved(s)
    ensures Starved(Step(s, DeliverToA))
  {
    StepKeeps(s, DeliverToA);
    if s.ba != [] {
      var (a', ms) := Receive(s.a, s.ba[0]);
      AdjustFits(s.a, s.b, s.ab, s.ba);
      HeadIsAcceptable(s.b, s.a, s.ba, s.ab);
      ReceiveOk(s.a, s.ba[0]);
      if ms != [] { One(Eof); }
      ConcatNumbers(s.ab, ms);
    }
  }

  lemma StarvedToB(s: Sys)
    requires Starved(s)
    ensures Starved(Step(s, DeliverToB))
  {
    StepKeeps(s, DeliverToB);
    if s.ab != [] {
      var (b', ms) := Receive(s.b, s.ab[0]);
      AdjustFits(s.b, s.a, s.ba, s.ab);
      HeadIsAcceptable(s.a, s.b, s.ab, s.ba);
      ReceiveOk(s.b, s.ab[0]);
      StarvedReceives(s.b, s.ab[0]);
      if ms != [] { One(Eof); }
      ConcatNumbers(s.ba, ms);
    }
  }

  lemma IdleTakesNothing(c: Chan)
    requires Idle(c)
    ensures Idle(InputData(c, []).0) && Idle(InputExtData(c, []).0)
  {
    assert c.output + [] == c.output && c.extended + [] == c.extended;
    assert Sub32(c.localWindow, 0) == c.localWindow && Add32(c.localConsumed, 0) == c.localConsumed;
    assert c.(localWindow := c.localWindow, localConsumed := c.localConsumed) == c;
    assert c.(localWindow := c.localWindow, output := c.output) == c;
    assert c.(localWindow := c.localWindow, extended := c.extended) == c;
  }

  lemma IdleStays(c: Chan, n: uint32)
    requires Idle(c)
    ensures Idle(InputWindowAdjust(c, n)) && Idle(RcvdEow(c))
  {
  }

  lemma IdleCloses(c: Chan)
    requires Idle(c)
    ensures Idle(RcvdEof(c)) && Idle(RcvdClose(c).0)
  {
  }

  lemma StarvedReceives(e: End, m: Msg)
    requires Idle(e.c) && LenOf(m) == 0
    ensures Idle(Receive(e, m).0.c)
  {
    match m
    case Data(d) =>
      assert d == [];
      IdleTakesNothing(e.c);
    case ExtData(d) =>
      assert d == [];
      IdleTakesNothing(e.c);
    case WindowAdjust(n) => IdleStays(e.c, n);
    case Eow => IdleStays(e.c, 0);
    case _ => IdleCloses(e.c);
  }

  lemma StarvedStep(s: Sys, ev: Event)
    requires Starved(s)
    ensures Starved(Step(s, ev))
  {
    match ev
    case ActA(act) => StarvedActA(s, act);
    case ActB(act) => StarvedActB(s, act);
    case DeliverToA => StarvedToA(s);
    case DeliverToB => StarvedToB(s);
  }

  /** A starved sender never gets a window again, whatever either end does. */
  lemma {:induction false} StarvedForever(s: Sys, evs: seq<Event>)
    requires Starved(s)
    ensures Starved(Run(s, evs))
    decreases |evs|
  {
    if evs != [] {
      StarvedForever(s, evs[..|evs| - 1]);
      StarvedStep(Run(s, evs[..|evs| - 1]), evs[|evs| - 1]);
    }
  }

  /** The sender's window is zero in every later state. */
  ghost predicate NeverReopens(s: Sys) {
    forall evs: seq<Event> :: Run(s, evs).a.c.remoteWindow == 0
  }

  /** A quiescent channel is starved for good if and only if the window its receiver leaves is zero. */
  lemma StarvedIff(s: Sys)
    requires Reachable(s) && Quiescent(s)
    ensures NeverReopens(s) <==> WindowLeft(s.b) == 0
  {
    ReachableInv(s);
    RefreshExact(s);
    if WindowLeft(s.b) == 0 {
      assert Starved(s);
      forall evs: seq<Event>
        ensures Run(s, evs).a.c.remoteWindow == 0
      {
        StarvedForever(s, evs);
      }
    }
    RunSnoc(s, [], ActB(AdjustWindow));
    RunSnoc(s, [ActB(AdjustWindow)], DeliverToA);
    assert Run(s, [ActB(AdjustWindow)] + [DeliverToA]) == Refresh(s);
  }

  // ----- Three ways to starve -----

  /** A full window of data followed by one failed write: everything is lost. */
  lemma StarvedByWriteError(s: Sys, d: seq<byte>)
    requires Init(s) && s.ab == [] && s.ba == []
    requires 0 < |d| == s.b.c.localWindowMax <= s.a.c.remoteMaxpacket
    ensures var s' := Run(s, [ActA(ReadRfd(d)), ActA(Poll), DeliverToB, ActB(WfdFails)]);
            Starved(s') && s'.b.log.lost == s'.b.c.localWindowMax
  {
    var evs := [ActA(ReadRfd(d)), ActA(Poll), DeliverToB, ActB(WfdFails)];
    InitHolds(s);
    Stays(s, evs);
    DataArrives(s, d);
    var s3 := Arrived(s, d);
    WriteIsLost(s3, d);
    RunFour(s, evs[0], evs[1], evs[2], evs[3]);
  }

  lemma WriteIsLost(s: Sys, d: seq<byte>)
    requires s.b.c.ostate == OutputOpen && s.b.c.output == d != [] && s.ba == []
    ensures var s' := Step(s, ActB(WfdFails));
            && s'.a == s.a && s'.ab == s.ab && Credit(s'.ba) == 0
            && s'.b.c == s.b.c.(ostate := OutputClosed, output := []) && s'.b.log.lost == s.b.log.lost + |d|
  {
    One(Eow);
    assert [] + [Eow] == [Eow];
  }

  /**
   * Extended data that the receiver ignores, then data that it writes: the window is used up, but no more than half of
   * it was consumed, so nothing is given back. Six bytes of window and three of each kind suffice.
   */
  lemma StarvedByIgnoredData(s: Sys, e: seq<byte>, d: seq<byte>)
    requires Init(s) && s.ab == [] && s.ba == []
    requires s.a.c.extUsage == ExtRead && s.a.c.efdOpen && !s.b.c.efdOpen
    requires 0 < |e| <= s.a.c.remoteMaxpacket && 0 < |d| <= s.a.c.remoteMaxpacket && |e| + |d| == s.b.c.localWindowMax
    requires |d| <= s.b.c.localWindowMax / 2 && |d| <= (s.b.c.localMaxpacket * 3) % U32
    ensures var first := Run(s, [ActA(ReadEfd(e)), ActA(Poll), DeliverToB]);
            var s' := Run(first, [ActA(ReadRfd(d)), ActA(Poll), DeliverToB, ActB(WriteWfd(|d|))]);
            Quiescent(s') && WindowLeft(s'.b) == 0 && s'.b.log.lost + s'.b.log.dropped == |e| && Starved(s')
  {
    ExtDataIsIgnored(s, e);
    RunThree(s, ActA(ReadEfd(e)), ActA(Poll), DeliverToB);
    InitHolds(s);
    Stays(s, [ActA(ReadEfd(e)), ActA(Poll), DeliverToB]);
    LastHalfIsWritten(Ignored(s, e), d);
  }

  /** The rest of the window is used for data that is written, and that is too little to be announced. */
  lemma LastHalfIsWritten(s: Sys, d: seq<byte>)
    requires Inv(s) && s.ab == [] && s.ba == [] && OpenSender(s.a.c) && OpenReceiver(s.b.c)
             && s.b.c.localWindow == s.b.c.localWindowMax
    requires 0 < |d| == s.a.c.remoteWindow <= s.a.c.remoteMaxpacket && Held(s.b.c) == 0 && s.b.c.localConsumed == 0
    requires |d| <= s.b.c.localWindowMax / 2 && |d| <= (s.b.c.localMaxpacket * 3) % U32
    ensures var s' := Run(s, [ActA(ReadRfd(d)), ActA(Poll), DeliverToB, ActB(WriteWfd(|d|))]);
            Quiescent(s') && WindowLeft(s'.b) == 0 && s'.b.log == s.b.log.(put := s'.b.log.put) && Starved(s')
  {
    var evs := [ActA(ReadRfd(d)), ActA(Poll), DeliverToB, ActB(WriteWfd(|d|))];
    RunFour(s, evs[0], evs[1], evs[2], evs[3]);
    Stays(s, evs);
    DataArrives(s, d);
    var s3 := Arrived(s, d);
    WrittenAll(s3.b, d);
    var s4 := Step(s3, evs[3]);
    assert s4.b.c == s3.b.c.(output := [], localConsumed := |d|);
    TooLittle(s4.b.c, |d|);
    assert WindowExact(s4.a, s4.b, s4.ab, s4.ba);
  }

  lemma WrittenAll(e: End, d: seq<byte>)
    requires e.c.output == d && d != [] && e.c.ostate == OutputOpen && e.c.localConsumed == 0 && |d| < U32
    ensures var c' := e.c.(output := [], localConsumed := |d|);
            Perform(e, WriteWfd(|d|)) == (End(c', e.log.(put := e.log.put + d)), [])
  {
    assert d[|d|..] == [] && d[..|d|] == d;
  }

  lemma TooLittle(c: Chan, n: nat)
    requires c.localWindow + n == c.localWindowMax && n <= c.localWindowMax / 2 && n <= (c.localMaxpacket * 3) % U32
    ensures !Due(c)
  {
  }

  /**
   * A full window of extended data whose descriptor then fails: it stays in the buffer for ever, and nothing counts as
   * lost.
   */
  lemma StarvedByStuckData(s: Sys, e: seq<byte>)
    requires Init(s) && s.ab == [] && s.ba == []
    requires s.a.c.extUsage == ExtRead && s.a.c.efdOpen && s.b.c.extUsage == ExtWrite && s.b.c.efdOpen
    requires 0 < |e| == s.b.c.localWindowMax <= s.a.c.remoteMaxpacket
    ensures var s' := Run(s, [ActA(ReadEfd(e)), ActA(Poll), DeliverToB, ActB(EfdFails)]);
            && Quiescent(s') && WindowLeft(s'.b) == 0 && s'.b.log.lost + s'.b.log.dropped == 0
            && Stuck(s'.b.c) == s'.b.c.localWindowMax && Starved(s')
  {
    var evs := [ActA(ReadEfd(e)), ActA(Poll), DeliverToB, ActB(EfdFails)];
    InitHolds(s);
    Stays(s, evs);
    RunFour(s, evs[0], evs[1], evs[2], evs[3]);
    ExtDataSticks(s, e);
  }

  lemma ExtDataSticks(s: Sys, e: seq<byte>)
    requires s.ab == [] && s.ba == [] && OpenSender(s.a.c) && s.a.c.extUsage == ExtRead && s.a.c.efdOpen
    requires s.b.c.extUsage == ExtWrite && s.b.c.efdOpen && !s.b.c.eofRcvd && s.b.c.extended == [] && !s.b.log.refused
    requires 0 < |e| <= s.a.c.remoteWindow && |e| <= s.a.c.remoteMaxpacket && |e| <= s.b.c.localWindow
    ensures var s' := Step(Step(Step(Step(s, ActA(ReadEfd(e))), ActA(Poll)), DeliverToB), ActB(EfdFails));
            && s'.ab == [] && s'.ba == [] && s'.a.c == s.a.c.(remoteWindow := s.a.c.remoteWindow - |e|)
            && s'.b == s.b.(c := s.b.c.(localWindow := s.b.c.localWindow - |e|, extended := e, efdOpen := false))
  {
    ExtSent(s, e);
    assert [] + e == e;
    assert Receive(s.b, ExtData(e)) == (s.b.(c := s.b.c.(localWindow := s.b.c.localWindow - |e|, extended := e)), []);
  }

  /** The state after `d` was read, sent and buffered by the receiver. */
  function Arrived(s: Sys, d: seq<byte>): Sys
    requires |d| <= s.a.c.remoteWindow && |d| <= s.b.c.localWindow
  {
    s.(a := s.a.(c := s.a.c.(remoteWindow := s.a.c.remoteWindow - |d|), log := s.a.log.(got := s.a.log.got + d)),
       b := s.b.(c := s.b.c.(output := d, localWindow := s.b.c.localWindow - |d|)))
  }

  predicate OpenReceiver(c: Chan) { c.ostate == OutputOpen && c.output == [] }

  lemma DataArrives(s: Sys, d: seq<byte>)
    requires s.ab == [] && s.ba == [] && OpenSender(s.a.c) && OpenReceiver(s.b.c)
    requires 0 < |d| <= s.a.c.remoteWindow && |d| <= s.b.c.localWindow && |d| <= s.a.c.remoteMaxpacket
    ensures Step(Step(Step(s, ActA(ReadRfd(d))), ActA(Poll)), DeliverToB) == Arrived(s, d)
  {
    DataSent(s, d);
    BufferedAll(s.b, d);
  }

  lemma DataSent(s: Sys, d: seq<byte>)
    requires s.ab == [] && OpenSender(s.a.c)
    requires 0 < |d| <= s.a.c.remoteWindow && |d| <= s.a.c.remoteMaxpacket
    ensures Step(Step(s, ActA(ReadRfd(d))), ActA(Poll))
         == s.(a := s.a.(c := s.a.c.(remoteWindow := s.a.c.remoteWindow - |d|),
                         log := s.a.log.(got := s.a.log.got + d)),
               ab := [Data(d)])
  {
    var a1 := Perform(s.a, ReadRfd(d)).0;
    assert [] + d == d;
    assert a1 == s.a.(c := s.a.c.(input := d), log := s.a.log.(got := s.a.log.got + d));
    DataPolledAll(a1, d);
    assert [] + [Data(d)] == [Data(d)];
  }

  lemma BufferedAll(e: End, d: seq<byte>)
    requires e.c.ostate == OutputOpen && e.c.output == [] && |d| <= e.c.localWindow
    ensures Receive(e, Data(d)) == (e.(c := e.c.(output := d, localWindow := e.c.localWindow - |d|)), [])
  {
    assert [] + d == d;
  }

  /** A sender with empty buffers that announced nothing yet. */
  predicate OpenSender(c: Chan) {
    c.istate == InputOpen && c.input == [] && c.extended == [] && !c.closeSent && !c.closeRcvd && !c.eofSent
  }

  lemma DataPolledAll(e: End, d: seq<byte>)
    requires e.c.input == d && OpenSender(e.c.(input := []))
    requires 0 < |d| <= e.c.remoteWindow && |d| <= e.c.remoteMaxpacket
    ensures Perform(e, Poll) == (e.(c := e.c.(input := [], remoteWindow := e.c.remoteWindow - |d|)), [Data(d)])
  {
    assert d[|d|..] == [] && d[..|d|] == d;
    assert PollInput(e.c) == (e.c.(input := [], remoteWindow := e.c.remoteWindow - |d|), [Data(d)]);
    assert [Data(d)] + [] == [Data(d)];
  }

  lemma ExtSent(s: Sys, e: seq<byte>)
    requires s.ab == [] && OpenSender(s.a.c) && s.a.c.extUsage == ExtRead && s.a.c.efdOpen
    requires 0 < |e| <= s.a.c.remoteWindow && |e| <= s.a.c.remoteMaxpacket
    ensures Step(Step(s, ActA(ReadEfd(e))), ActA(Poll))
         == s.(a := s.a.(c := s.a.c.(remoteWindow := s.a.c.remoteWindow - |e|),
                         log := s.a.log.(egot := s.a.log.egot + e)),
               ab := [ExtData(e)])
  {
    var a1 := Perform(s.a, ReadEfd(e)).0;
    assert [] + e == e;
    assert a1 == s.a.(c := s.a.c.(extended := e), log := s.a.log.(egot := s.a.log.egot + e));
    assert e[|e|..] == [] && e[..|e|] == e;
    assert PollInput(a1.c) == (a1.c, []);
    assert PollExtended(a1.c) == (a1.c.(extended := [], remoteWindow := a1.c.remoteWindow - |e|), [ExtData(e)]);
    assert [] + [ExtData(e)] == [ExtData(e)];
  }

  function Ignored(s: Sys, e: seq<byte>): Sys
    requires |e| <= s.a.c.remoteWindow
  {
    s.(a := s.a.(c := s.a.c.(remoteWindow := s.a.c.remoteWindow - |e|), log := s.a.log.(egot := s.a.log.egot + e)),
       b := s.b.(log := s.b.log.(dropped := s.b.log.dropped + |e|)))
  }

  lemma ExtDataIsIgnored(s: Sys, e: seq<byte>)
    requires s.ab == [] && s.ba == [] && OpenSender(s.a.c) && s.a.c.extUsage == ExtRead && s.a.c.efdOpen
    requires !s.b.c.efdOpen && !s.b.c.eofRcvd && !s.b.log.refused
    requires 0 < |e| <= s.a.c.remoteWindow && |e| <= s.a.c.remoteMaxpacket
    ensures Step(Step(Step(s, ActA(ReadEfd(e))), ActA(Poll)), DeliverToB) == Ignored(s, e)
  {
    ExtSent(s, e);
  }

  // ----- Runs -----

  lemma RunSnoc(s: Sys, evs: seq<Event>, ev: Event)
    ensures Run(s, evs + [ev]) == Step(Run(s, evs), ev)
  {
    assert (evs + [ev])[..|evs|] == evs;
  }

  lemma RunThree(s: Sys, e1: Event, e2: Event, e3: Event)
    ensures Run(s, [e1, e2, e3]) == Step(Step(Step(s, e1), e2), e3)
  {
    RunSnoc(s, [], e1);
    RunSnoc(s, [e1], e2);
    RunSnoc(s, [e1, e2], e3);
    assert [] + [e1] == [e1] && [e1] + [e2] == [e1, e2] && [e1, e2] + [e3] == [e1, e2, e3];
  }

  lemma RunFour(s: Sys, e1: Event, e2: Event, e3: Event, e4: Event)
    ensures Run(s, [e1, e2, e3, e4]) == Step(Step(Step(Step(s, e1), e2), e3), e4)
  {
    RunThree(s, e1, e2, e3);
    RunSnoc(s, [e1, e2, e3], e4);
    assert [e1, e2, e3] + [e4] == [e1, e2, e3, e4];
  }

  // ----- Both directions -----

  function Mirrored(ev: Event): Event {
    match ev
    case ActA(act) => ActB(act)
    case ActB(act) => ActA(act)
    case DeliverToA => DeliverToB
    case DeliverToB => DeliverToA
  }

  function MirroredAll(evs: seq<Event>): seq<Event> {
    if evs == [] then [] else MirroredAll(evs[..|evs| - 1]) + [Mirrored(evs[|evs| - 1])]
  }

  lemma {:induction false} RunSwaps(s: Sys, evs: seq<Event>)
    ensures Run(Swap(s), MirroredAll(evs)) == Swap(Run(s, evs))
    decreases |evs|
  {
    if evs != [] {
      RunSwaps(s, evs[..|evs| - 1]);
      RunSnoc(Swap(s), MirroredAll(evs[..|evs| - 1]), Mirrored(evs[|evs| - 1]));
    }
  }

  /** Every theorem about the direction from `a` to `b` holds for the other one too. */
  lemma SwapIsReachable(s: Sys)
    requires Reachable(s)
    ensures Reachable(Swap(s))
  {
    var s0: Sys, evs: seq<Event> :| Init(s0) && s == Run(s0, evs);
    RunSwaps(s0, evs);
    assert Init(Swap(s0));
  }
}
