/** Two channel objects joined by two queues: the runs of FlowControl, played by the methods of Channels. */
module ChannelRuns {
  import opened Bytes
  import opened ChannelEnd
  import opened Channels
  import opened FlowControl
  import FlowSafety

  /** Reads and their failures. */
  method ActOnInput(ch: Channel, ghost e: End, act: Act) returns (sent: seq<Msg>)
    requires ch.View() == e.c && (act.ReadRfd? || act.RfdFails? || act.ReadEfd? || act.EfdFails? || act.Poll?)
    modifies ch
    ensures ch.View() == Perform(e, act).0.c && sent == Perform(e, act).1
  {
    sent := [];
    match act {
      case ReadRfd(d) =>
        if ch.istate == InputOpen { ch.HandleRfd(d); }
      case RfdFails => ch.ReadFailed();
      case ReadEfd(d) =>
        if ch.efdOpen && ch.extUsage == ExtRead { ch.ReadEfd(d); }
      case EfdFails => ch.CloseEfd();
      case Poll => sent := ch.OutputPoll();
    }
  }

  /** Writes, their failures and what follows them. */
  method ActOnOutput(ch: Channel, ghost e: End, act: Act) returns (sent: seq<Msg>)
    requires ch.View() == e.c
    requires act.WriteWfd? || act.WfdFails? || act.Drained? || act.WriteEfd? || act.AdjustWindow? || act.Collect?
    modifies ch
    ensures ch.View() == Perform(e, act).0.c && sent == Perform(e, act).1
  {
    sent := [];
    match act {
      case WriteWfd(n) =>
        if ch.ostate != OutputClosed && 0 < n <= |ch.output| { ch.HandleWfd(n); }
      case WfdFails =>
        if ch.ostate != OutputClosed && |ch.output| > 0 { sent := ch.WriteFailed(); }
      case Drained =>
        if ch.ostate == OutputWaitDrain && |ch.output| == 0 && !EfdOutputActive(ch.View()) { ch.ObufEmpty(); }
      case WriteEfd(n) =>
        if ch.efdOpen && ch.extUsage == ExtWrite && 0 < n <= |ch.extended| { ch.HandleEfd(n); }
      case AdjustWindow => sent := ch.CheckWindow();
      case Collect => sent := ch.SendCloseIfDone();
    }
  }

  method Act(ch: Channel, ghost e: End, act: Act) returns (sent: seq<Msg>)
    requires ch.View() == e.c
    modifies ch
    ensures ch.View() == Perform(e, act).0.c && sent == Perform(e, act).1
  {
    if act.ReadRfd? || act.RfdFails? || act.ReadEfd? || act.EfdFails? || act.Poll? {
      sent := ActOnInput(ch, e, act);
    } else {
      sent := ActOnOutput(ch, e, act);
    }
  }

  /** The handler of one message. */
  method Deliver(ch: Channel, ghost e: End, m: Msg) returns (sent: seq<Msg>)
    requires ch.View() == e.c
    modifies ch
    ensures ch.View() == Receive(e, m).0.c && sent == Receive(e, m).1
  {
    sent := [];
    match m {
      case Data(d) => var _ := ch.InputData(d);
      case ExtData(d) => var _ := ch.InputExtendedData(d);
      case WindowAdjust(n) => ch.InputWindowAdjust(n);
      case Eof => ch.RcvdEof();
      case Close => sent := ch.RcvdClose();
      case Eow => ch.RcvdEow();
    }
  }

  /** Objects and queues hold the channels and queues of a state. */
  ghost predicate Holds(a: Channel, b: Channel, ab: seq<Msg>, ba: seq<Msg>, s: Sys)
    reads a, b
  {
    a.View() == s.a.c && b.View() == s.b.c && ab == s.ab && ba == s.ba
  }

  /** One event. */
  method Play(a: Channel, b: Channel, ab: seq<Msg>, ba: seq<Msg>, ghost s: Sys, ev: Event)
    returns (ab': seq<Msg>, ba': seq<Msg>)
    requires a != b && Holds(a, b, ab, ba, s)
    modifies a, b
    ensures Holds(a, b, ab', ba', Step(s, ev))
  {
    ab', ba' := ab, ba;
    match ev {
      case ActA(act) =>
        var sent := Act(a, s.a, act);
        ab' := ab + sent;
      case ActB(act) =>
        var sent := Act(b, s.b, act);
        ba' := ba + sent;
      case DeliverToA =>
        if |ba| > 0 {
          var sent := Deliver(a, s.a, ba[0]);
          ab', ba' := ab + sent, ba[1..];
        }
      case DeliverToB =>
        if |ab| > 0 {
          var sent := Deliver(b, s.b, ab[0]);
          ab', ba' := ab[1..], ba + sent;
        }
    }
  }

  /**
   * A whole run on two objects refines the run of values, so from fresh channels the window of either object covers
   * what the other may send and what is under way.
   */
  method RunObjects(a: Channel, b: Channel, ab: seq<Msg>, ba: seq<Msg>, ghost s: Sys, evs: seq<Event>)
    returns (ab': seq<Msg>, ba': seq<Msg>)
    requires a != b && Holds(a, b, ab, ba, s)
    modifies a, b
    ensures Holds(a, b, ab', ba', Run(s, evs))
    ensures Init(s) ==> a.localWindow >= b.remoteWindow + Charge(ba') + Credit(ab')
    ensures Init(s) ==> b.localWindow >= a.remoteWindow + Charge(ab') + Credit(ba')
  {
    ab', ba' := ab, ba;
    var i := 0;
    while i < |evs|
      invariant 0 <= i <= |evs| && Holds(a, b, ab', ba', Run(s, evs[..i]))
    {
      assert evs[..i + 1][..i] == evs[..i];
      ab', ba' := Play(a, b, ab', ba', Run(s, evs[..i]), evs[i]);
      i := i + 1;
    }
    assert evs[..|evs|] == evs;
    if Init(s) {
      assert FlowSafety.Reachable(Run(s, evs));
      FlowSafety.WindowIsNeverOverrun(Run(s, evs));
    }
  }
}
