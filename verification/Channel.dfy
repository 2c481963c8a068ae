/** One end of a stream channel of protocol 2: the handlers of channels.c and nchan.c as state transformers. */
module ChannelEnd {
  import opened Arith
  import opened Bytes

  datatype IState = InputOpen | InputWaitDrain | InputClosed
  datatype OState = OutputOpen | OutputWaitDrain | OutputClosed
  datatype ExtUsage = ExtIgnore | ExtRead | ExtWrite

  datatype Msg =
    | Data(d: seq<byte>)
    | ExtData(d: seq<byte>)
    | WindowAdjust(n: uint32)
    | Eof
    | Close
    | Eow

  /** The fields of `Channel` that the data path and the close state machine use. */
  datatype Chan = Chan(
    istate: IState, ostate: OState,
    closeSent: bool, closeRcvd: bool, eofSent: bool, eofRcvd: bool,
    efdOpen: bool, extUsage: ExtUsage, session: bool,
    input: seq<byte>, output: seq<byte>, extended: seq<byte>,
    remoteWindow: uint32, remoteMaxpacket: uint32,
    localWindow: uint32, localWindowMax: uint32, localConsumed: uint32, localMaxpacket: uint32)

  /** Unsigned 32-bit addition and subtraction. */
  function Add32(a: int, b: int): uint32 { (a + b) % U32 }
  function Sub32(a: int, b: int): uint32 { (a - b) % U32 }

  /** CHANNEL_EFD_INPUT_ACTIVE */
  predicate EfdInputActive(c: Chan) {
    c.extUsage == ExtRead && (c.efdOpen || c.extended != [])
  }

  /** CHANNEL_EFD_OUTPUT_ACTIVE */
  predicate EfdOutputActive(c: Chan) {
    c.extUsage == ExtWrite && c.efdOpen && (!(c.eofRcvd || c.closeRcvd) || c.extended != [])
  }

  // ----- nchan.c -----

  /** `chan_read_failed` */
  function ReadFailed(c: Chan): Chan {
    if c.istate == InputOpen then c.(istate := InputWaitDrain) else c
  }

  /** `chan_ibuf_empty` */
  function IbufEmpty(c: Chan): (Chan, seq<Msg>) {
    if c.input != [] || c.istate != InputWaitDrain then (c, [])
    else if c.closeSent then (c.(istate := InputClosed), [])
    else (c.(istate := InputClosed, eofSent := true), [Eof])
  }

  /** `chan_obuf_empty` */
  function ObufEmpty(c: Chan): Chan {
    if c.output != [] || c.ostate != OutputWaitDrain then c else c.(ostate := OutputClosed)
  }

  /** `chan_write_failed2`: the buffered output is thrown away. */
  function WriteFailed(c: Chan): (Chan, seq<Msg>) {
    if c.ostate == OutputClosed then (c, [])
    else (c.(ostate := OutputClosed, output := []), if c.session then [Eow] else [])
  }

  /** `chan_rcvd_ieof` for protocol 2 */
  function RcvdEof(c: Chan): Chan {
    var c1 := c.(eofRcvd := true, ostate := if c.ostate == OutputOpen then OutputWaitDrain else c.ostate);
    if c1.ostate == OutputWaitDrain && c1.output == [] && !EfdOutputActive(c1) then ObufEmpty(c1) else c1
  }

  /** `chan_rcvd_close2` */
  function RcvdClose(c: Chan): (Chan, seq<Msg>) {
    var c1 := c.(closeRcvd := true, ostate := if c.ostate == OutputOpen then OutputWaitDrain else c.ostate);
    match c1.istate
    case InputOpen => (c1.(istate := InputClosed), [])
    case InputWaitDrain => (c1.(istate := InputClosed, eofSent := true), [Eof])
    case InputClosed => (c1, [])
  }

  /** `chan_rcvd_eow` */
  function RcvdEow(c: Chan): Chan {
    if c.istate == InputOpen then c.(istate := InputClosed) else c
  }

  /** `chan_is_dead(c, 1)`: a channel closed on both halves announces it once. */
  function SendCloseIfDone(c: Chan): (Chan, seq<Msg>) {
    if c.istate == InputClosed && c.ostate == OutputClosed && !c.closeSent
    then (c.(closeSent := true), [Close])
    else (c, [])
  }

  // ----- channels.c: sending -----

  /** The first half of `channel_output_poll`: buffered input, or the end of it. */
  function PollInput(c: Chan): (Chan, seq<Msg>) {
    if c.istate != InputClosed && c.input != [] then
      var len := Min(Min(|c.input|, c.remoteWindow), c.remoteMaxpacket);
      if len > 0
      then (c.(input := c.input[len..], remoteWindow := Sub32(c.remoteWindow, len)), [Data(c.input[..len])])
      else (c, [])
    else if c.istate == InputWaitDrain && !EfdInputActive(c) then IbufEmpty(c)
    else (c, [])
  }

  /** The second half of `channel_output_poll`: extended data. */
  function PollExtended(c: Chan): (Chan, seq<Msg>) {
    if !c.eofSent && c.remoteWindow > 0 && c.extended != [] && c.extUsage == ExtRead then
      var len := Min(Min(|c.extended|, c.remoteWindow), c.remoteMaxpacket);
      (c.(extended := c.extended[len..], remoteWindow := Sub32(c.remoteWindow, len)), [ExtData(c.extended[..len])])
    else (c, [])
  }

  /** `channel_output_poll` for one open channel */
  function OutputPoll(c: Chan): (Chan, seq<Msg>) {
    if c.closeSent || c.closeRcvd then (c, [])
    else
      var (c1, m1) := PollInput(c);
      var (c2, m2) := PollExtended(c1);
      (c2, m1 + m2)
  }

  /** `channel_check_window` */
  function CheckWindow(c: Chan): (Chan, seq<Msg>) {
    if && !c.closeSent && !c.closeRcvd
       && (Sub32(c.localWindowMax, c.localWindow) > (c.localMaxpacket * 3) % U32
           || c.localWindow < c.localWindowMax / 2)
       && c.localConsumed > 0
    then (c.(localWindow := Add32(c.localWindow, c.localConsumed), localConsumed := 0), [WindowAdjust(c.localConsumed)])
    else (c, [])
  }

  // ----- channels.c: receiving -----

  /** The branches that refuse what the peer sent. */
  datatype Refusal = Accepted | TooMuch | BadExtData | AfterEof

  /** `channel_input_data` */
  function InputData(c: Chan, d: seq<byte>): (Chan, Refusal) {
    if c.ostate != OutputOpen then
      (c.(localWindow := Sub32(c.localWindow, |d|), localConsumed := Add32(c.localConsumed, |d|)), Accepted)
    else if |d| > c.localWindow then (c, TooMuch)
    else (c.(localWindow := Sub32(c.localWindow, |d|), output := c.output + d), Accepted)
  }

  /** `channel_input_extended_data`; after an EOF the source disconnects. */
  function InputExtData(c: Chan, d: seq<byte>): (Chan, Refusal) {
    if c.eofRcvd then (c, AfterEof)
    else if !c.efdOpen || c.extUsage != ExtWrite then (c, BadExtData)
    else if |d| > c.localWindow then (c, TooMuch)
    else (c.(localWindow := Sub32(c.localWindow, |d|), extended := c.extended + d), Accepted)
  }

  /** `channel_input_window_adjust` */
  function InputWindowAdjust(c: Chan, n: uint32): Chan {
    c.(remoteWindow := Add32(c.remoteWindow, n))
  }

  // ----- channels.c: the descriptors -----

  /** `channel_handle_wfd` after `n` bytes were written */
  function Written(c: Chan, n: nat): Chan
    requires n <= |c.output|
  {
    c.(output := c.output[n..], localConsumed := Add32(c.localConsumed, n))
  }

  /** `channel_handle_efd` after `n` bytes were written */
  function ExtWritten(c: Chan, n: nat): Chan
    requires n <= |c.extended|
  {
    c.(extended := c.extended[n..], localConsumed := Add32(c.localConsumed, n))
  }
}

/** The same handlers on a mutable channel object. */
module Channels {
  import opened Bytes
  import opened ChannelEnd

  class Channel {
    var istate: IState
    var ostate: OState
    var closeSent: bool
    var closeRcvd: bool
    var eofSent: bool
    var eofRcvd: bool
    var efdOpen: bool
    const extUsage: ExtUsage
    const session: bool
    var input: seq<byte>
    var output: seq<byte>
    var extended: seq<byte>
    var remoteWindow: uint32
    var remoteMaxpacket: uint32
    var localWindow: uint32
    var localWindowMax: uint32
    var localConsumed: uint32
    var localMaxpacket: uint32

    function View(): Chan
      reads this
    {
      Chan(istate, ostate, closeSent, closeRcvd, eofSent, eofRcvd, efdOpen, extUsage, session, input, output, extended,
           remoteWindow, remoteMaxpacket, localWindow, localWindowMax, localConsumed, localMaxpacket)
    }

    constructor (window: uint32, maxpack: uint32, usage: ExtUsage, efd: bool, session: bool)
      ensures View() == Chan(InputOpen, OutputOpen, false, false, false, false, efd, usage, session, [], [], [],
                             0, 0, window, window, 0, maxpack)
    {
      istate, ostate := InputOpen, OutputOpen;
      closeSent, closeRcvd, eofSent, eofRcvd := false, false, false, false;
      efdOpen, extUsage, this.session := efd, usage, session;
      input, output, extended := [], [], [];
      remoteWindow, remoteMaxpacket := 0, 0;
      localWindow, localWindowMax, localConsumed, localMaxpacket := window, window, 0, maxpack;
    }

    method OutputPoll() returns (sent: seq<Msg>)
      modifies this
      ensures (View(), sent) == ChannelEnd.OutputPoll(old(View()))
    {
      if closeSent || closeRcvd {
        return [];
      }
      var data := SendInput();
      var extdata := SendExtended();
      sent := data + extdata;
    }

    method SendInput() returns (sent: seq<Msg>)
      requires !closeSent
      modifies this
      ensures (View(), sent) == PollInput(old(View()))
    {
      sent := [];
      if (istate == InputOpen || istate == InputWaitDrain) && |input| > 0 {
        var len := |input|;
        if len > remoteWindow { len := remoteWindow; }
        if len > remoteMaxpacket { len := remoteMaxpacket; }
        if len > 0 {
          sent := [Data(input[..len])];
          input := input[len..];
          remoteWindow := Sub32(remoteWindow, len);
        }
      } else if istate == InputWaitDrain {
        if extUsage == ExtRead && (efdOpen || |extended| > 0) {
          return;
        }
        sent := [Eof];
        eofSent := true;
        istate := InputClosed;
      }
    }

    method SendExtended() returns (sent: seq<Msg>)
      modifies this
      ensures (View(), sent) == PollExtended(old(View()))
    {
      sent := [];
      if !eofSent && remoteWindow > 0 && |extended| > 0 && extUsage == ExtRead {
        var len := |extended|;
        if len > remoteWindow { len := remoteWindow; }
        if len > remoteMaxpacket { len := remoteMaxpacket; }
        sent := [ExtData(extended[..len])];
        extended := extended[len..];
        remoteWindow := Sub32(remoteWindow, len);
      }
    }

    method InputData(d: seq<byte>) returns (r: Refusal)
      modifies this
      ensures (View(), r) == ChannelEnd.InputData(old(View()), d)
    {
      if ostate != OutputOpen {
        localWindow := Sub32(localWindow, |d|);
        localConsumed := Add32(localConsumed, |d|);
        return Accepted;
      }
      if |d| > localWindow {
        return TooMuch;
      }
      localWindow := Sub32(localWindow, |d|);
      output := output + d;
      r := Accepted;
    }

    method InputExtendedData(d: seq<byte>) returns (r: Refusal)
      modifies this
      ensures (View(), r) == InputExtData(old(View()), d)
    {
      if eofRcvd {
        return AfterEof;
      }
      if !efdOpen || extUsage != ExtWrite {
        return BadExtData;
      }
      if |d| > localWindow {
        return TooMuch;
      }
      localWindow := Sub32(localWindow, |d|);
      extended := extended + d;
      r := Accepted;
    }

    method InputWindowAdjust(adjust: uint32)
      modifies this
      ensures View() == ChannelEnd.InputWindowAdjust(old(View()), adjust)
    {
      remoteWindow := Add32(remoteWindow, adjust);
    }

    method CheckWindow() returns (sent: seq<Msg>)
      modifies this
      ensures (View(), sent) == ChannelEnd.CheckWindow(old(View()))
    {
      sent := [];
      if !(closeSent || closeRcvd) {
        if Sub32(localWindowMax, localWindow) > (localMaxpacket * 3) % U32 || localWindow < localWindowMax / 2 {
          if localConsumed > 0 {
            sent := [WindowAdjust(localConsumed)];
            localWindow := Add32(localWindow, localConsumed);
            localConsumed := 0;
          }
        }
      }
    }

    /** A successful write of `n` bytes; `olen` is the length before, as the source keeps it. */
    method HandleWfd(n: nat)
      requires 0 < n <= |output|
      modifies this
      ensures View() == Written(old(View()), n)
    {
      var olen := |output|;
      output := output[n..];
      localConsumed := Add32(localConsumed, olen - |output|);
    }

    method HandleEfd(n: nat)
      requires efdOpen && extUsage == ExtWrite && 0 < n <= |extended|
      modifies this
      ensures View() == ExtWritten(old(View()), n)
    {
      extended := extended[n..];
      localConsumed := Add32(localConsumed, n);
    }

    /** Bytes read from the descriptor. */
    method HandleRfd(d: seq<byte>)
      requires istate == InputOpen
      modifies this
      ensures View() == old(View()).(input := old(input) + d)
    {
      input := input + d;
    }

    /** Bytes read from the descriptor for extended data. */
    method ReadEfd(d: seq<byte>)
      requires efdOpen && extUsage == ExtRead
      modifies this
      ensures View() == old(View()).(extended := old(extended) + d)
    {
      extended := extended + d;
    }

    method CloseEfd()
      modifies this
      ensures View() == old(View()).(efdOpen := false)
    {
      efdOpen := false;
    }

    method ReadFailed()
      modifies this
      ensures View() == ChannelEnd.ReadFailed(old(View()))
    {
      if istate == InputOpen {
        istate := InputWaitDrain;
      }
    }

    method WriteFailed() returns (sent: seq<Msg>)
      modifies this
      ensures (View(), sent) == ChannelEnd.WriteFailed(old(View()))
    {
      sent := [];
      if ostate != OutputClosed {
        output := [];
        if session { sent := [Eow]; }
        ostate := OutputClosed;
      }
    }

    method ObufEmpty()
      modifies this
      ensures View() == ChannelEnd.ObufEmpty(old(View()))
    {
      if |output| == 0 && ostate == OutputWaitDrain {
        ostate := OutputClosed;
      }
    }

    method SendCloseIfDone() returns (sent: seq<Msg>)
      modifies this
      ensures (View(), sent) == ChannelEnd.SendCloseIfDone(old(View()))
    {
      sent := [];
      if istate == InputClosed && ostate == OutputClosed && !closeSent {
        closeSent := true;
        sent := [Close];
      }
    }

    method RcvdEof()
      modifies this
      ensures View() == ChannelEnd.RcvdEof(old(View()))
    {
      eofRcvd := true;
      if ostate == OutputOpen {
        ostate := OutputWaitDrain;
      }
      if ostate == OutputWaitDrain && |output| == 0 && !EfdOutputActive(View()) {
        ObufEmpty();
      }
    }

    method RcvdEow()
      modifies this
      ensures View() == ChannelEnd.RcvdEow(old(View()))
    {
      if istate == InputOpen {
        istate := InputClosed;
      }
    }

    method RcvdClose() returns (sent: seq<Msg>)
      modifies this
      ensures (View(), sent) == ChannelEnd.RcvdClose(old(View()))
    {
      sent := [];
      closeRcvd := true;
      if ostate == OutputOpen {
        ostate := OutputWaitDrain;
      }
      match istate {
        case InputOpen =>
          istate := InputClosed;
        case InputWaitDrain =>
          eofSent := true;
          sent := [Eof];
          istate := InputClosed;
        case InputClosed =>
      }
    }
  }
}
