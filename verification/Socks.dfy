/** Dynamic port forwarding: the resumable SOCKS4, SOCKS4A and SOCKS5 decoders of channels.c. */
module Socks {
  import opened Bytes
  import opened Options

  type Text = seq<byte>

  const NI_MAXHOST := 1025
  const SOCKS4_LIMIT := 1024

  /** Address formatting of the C library. */
  datatype Format = Format(ipv4: seq<byte> -> Text, ipv6: seq<byte> -> Option<Text>)

  datatype Verdict = NeedMore | AuthDone | Reject | Accept

  /** What becomes of the target stored in the channel: kept, its path forgotten, or replaced. */
  datatype Target = Keep | Forget | Replace(path: Text, port: nat)

  /** What one look at the input decides: how many bytes it takes, the target, and the reply. */
  datatype Decision = Decision(verdict: Verdict, consumed: nat, target: Target, reply: seq<byte>)

  const MORE := Decision(NeedMore, 0, Keep, [])

  function Refuse(consumed: nat, target: Target): Decision { Decision(Reject, consumed, target, []) }

  function U16(a: byte, b: byte): nat {
    var hi: int, lo: int := a, b;
    hi * 0x100 + lo
  }

  /** `strlen`: the position of the first NUL, or the length if there is none. */
  function NulAt(s: seq<byte>): (k: nat)
    ensures k <= |s| && (k < |s| ==> s[k] == 0) && forall i :: 0 <= i < k ==> s[i] != 0
  {
    if s == [] || s[0] == 0 then 0 else 1 + NulAt(s[1..])
  }

  // ----- SOCKS4 and SOCKS4A -----

  datatype Scan = Missing | TooLong | Found(at: nat)

  /** Looks for the terminating NULs from position `i` on, giving up past the limit. */
  function ScanFrom(s: seq<byte>, i: nat, need: nat): (r: Scan)
    requires i <= |s| && need > 0
    ensures r.Found? ==> i <= r.at < |s| && s[r.at] == 0
    decreases |s| - i
  {
    if i == |s| then Missing
    else if s[i] == 0 && need == 1 then Found(i)
    else if i > SOCKS4_LIMIT then TooLong
    else ScanFrom(s, i + 1, if s[i] == 0 then need - 1 else need)
  }

  function Need4(s: seq<byte>): nat
    requires |s| >= 8
  {
    if s[4] == 0 && s[5] == 0 && s[6] == 0 && s[7] != 0 then 2 else 1
  }

  /** `channel_decode_socks4` */
  function Decode4(fmt: Format, s: seq<byte>): Decision {
    if |s| < 8 then MORE
    else
      var need := Need4(s);
      match ScanFrom(s, 8, need)
      case Missing => MORE
      case TooLong => Refuse(0, Keep)
      case Found(_) => Finish4(fmt, s)
  }

  /** Position behind the user name. */
  function UserEnd(s: seq<byte>): nat
    requires |s| >= 8
  {
    8 + NulAt(s[8..]) + 1
  }

  /** The strings are complete: they are cut out and the request is judged. */
  function Finish4(fmt: Format, s: seq<byte>): Decision
    requires |s| >= 8
  {
    var user := UserEnd(s);
    if user > |s| then MORE
    else if Need4(s) == 1 then Target4(s, user, fmt.ipv4(s[4..8]))
    else Host4(s, user)
  }

  function Host4(s: seq<byte>, user: nat): Decision
    requires 8 <= user <= |s|
  {
    var host := NulAt(s[user..]);
    if user + host + 1 > |s| then MORE
    else if host + 1 > NI_MAXHOST then Refuse(user, Forget)
    else Target4(s, user + host + 1, s[user..user + host])
  }

  function Target4(s: seq<byte>, consumed: nat, path: Text): Decision
    requires |s| >= 8
  {
    var port := U16(s[2], s[3]);
    if s[1] != 1 then Refuse(consumed, Replace(path, port))
    else Decision(Accept, consumed, Replace(path, port), [0, 90, 0, 0, 0, 0, 0, 0])
  }

  // ----- SOCKS5 -----

  /** `channel_decode_socks5` before authentication is done */
  function Greeting5(s: seq<byte>): Decision {
    if |s| < 2 then MORE
    else
      var n: int := s[1];
      if |s| < n + 2 then MORE
      else if 0 !in s[2..n + 2] then Refuse(0, Keep) else Decision(AuthDone, n + 2, Keep, [5, 0])
  }

  function AddrLen5(s: seq<byte>): Option<nat>
    requires |s| >= 5
  {
    if s[3] == 1 then Some(4) else if s[3] == 3 then Some(s[4]) else if s[3] == 4 then Some(16) else None
  }

  /** `channel_decode_socks5` after authentication is done */
  function Request5(fmt: Format, s: seq<byte>): Decision {
    if |s| < 5 then MORE
    else if s[0] != 5 || s[1] != 1 || s[2] != 0 then Refuse(0, Keep)
    else
      var len := AddrLen5(s);
      if len.None? then Refuse(0, Keep)
      else
        var start := if s[3] == 3 then 5 else 4;
        var total := start + len.value + 2;
        if |s| < total then MORE
        else
          var addr := s[start..start + len.value];
          var path :=
            if s[3] == 3 then Some(addr[..NulAt(addr)])
            else if s[3] == 1 then Some(fmt.ipv4(addr))
            else fmt.ipv6(addr);
          if path.None? then Refuse(total, Forget)
          else
            var target := Replace(path.value, U16(s[total - 2], s[total - 1]));
            Decision(Accept, total, target, [5, 0, 0, 1, 0, 0, 0, 0, 0, 0])
  }

  /** The dispatch of `channel_pre_dynamic` on what is in the input buffer. */
  function Decode(fmt: Format, authDone: bool, s: seq<byte>): Decision {
    if |s| < 3 then MORE
    else if s[0] == 4 then Decode4(fmt, s)
    else if s[0] == 5 then if authDone then Request5(fmt, s) else Greeting5(s)
    else Refuse(0, Keep)
  }

  // ----- A decision does not depend on bytes that arrive later -----

  lemma {:induction false} ScanStable(s: seq<byte>, t: seq<byte>, i: nat, need: nat)
    requires i <= |s| && need > 0
    ensures ScanFrom(s, i, need) != Missing ==> ScanFrom(s + t, i, need) == ScanFrom(s, i, need)
    decreases |s| - i
  {
    if i < |s| {
      assert (s + t)[i] == s[i];
      if !(s[i] == 0 && need == 1) && i <= SOCKS4_LIMIT {
        ScanStable(s, t, i + 1, if s[i] == 0 then need - 1 else need);
      }
    }
  }

  lemma {:induction false} NulStable(s: seq<byte>, t: seq<byte>)
    requires NulAt(s) < |s|
    ensures NulAt(s + t) == NulAt(s)
  {
    if s[0] != 0 {
      NulStable(s[1..], t);
      assert (s + t)[1..] == s[1..] + t;
    }
  }

  lemma {:induction false} FoundHasNul(s: seq<byte>, i: nat, need: nat)
    requires i <= |s| && need > 0 && ScanFrom(s, i, need).Found?
    ensures NulAt(s[i..]) < |s[i..]|
    ensures need == 2 ==> var j := i + NulAt(s[i..]) + 1; j <= |s| && ScanFrom(s, j, 1) == ScanFrom(s, i, need)
    ensures need == 1 ==> ScanFrom(s, i, need).at == i + NulAt(s[i..])
    decreases |s| - i
  {
    assert s[i..][0] == s[i];
    if s[i] != 0 {
      FoundHasNul(s, i + 1, need);
      assert s[i..][1..] == s[i + 1..];
    }
  }

  /** Where the user name and, for SOCKS4A, the host name end. */
  lemma Strings4(s: seq<byte>)
    requires |s| >= 8 && ScanFrom(s, 8, Need4(s)).Found?
    ensures var user := UserEnd(s);
            && user <= |s|
            && (Need4(s) == 2 ==> NulAt(s[user..]) < |s[user..]| && user + NulAt(s[user..]) == ScanFrom(s, 8, 2).at)
  {
    FoundHasNul(s, 8, Need4(s));
    if Need4(s) == 2 {
      FoundHasNul(s, UserEnd(s), 1);
    }
  }

  lemma {:induction false} FoundWithinLimit(s: seq<byte>, i: nat, need: nat)
    requires i <= SOCKS4_LIMIT + 1 && i <= |s| && need > 0 && ScanFrom(s, i, need).Found?
    ensures ScanFrom(s, i, need).at <= SOCKS4_LIMIT + 1
    decreases |s| - i
  {
    if !(s[i] == 0 && need == 1) {
      FoundWithinLimit(s, i + 1, if s[i] == 0 then need - 1 else need);
    }
  }

  /** The limit on the scan makes the later check of the host name length redundant. */
  lemma HostIsNeverTooLong(s: seq<byte>)
    requires |s| >= 8 && Need4(s) == 2 && ScanFrom(s, 8, 2).Found?
    ensures var user := UserEnd(s); user <= |s| && NulAt(s[user..]) + 1 <= NI_MAXHOST
  {
    Strings4(s);
    FoundWithinLimit(s, 8, 2);
  }

  lemma TargetStable(s: seq<byte>, t: seq<byte>, consumed: nat, path: Text)
    requires |s| >= 8
    ensures Target4(s + t, consumed, path) == Target4(s, consumed, path) && Need4(s + t) == Need4(s)
  {
  }

  lemma UserStable(s: seq<byte>, t: seq<byte>)
    requires |s| >= 8 && NulAt(s[8..]) < |s[8..]|
    ensures UserEnd(s + t) == UserEnd(s)
  {
    assert (s + t)[8..] == s[8..] + t;
    NulStable(s[8..], t);
  }

  lemma HostStable(s: seq<byte>, t: seq<byte>, user: nat)
    requires 8 <= user <= |s| && NulAt(s[user..]) < |s[user..]|
    ensures Host4(s + t, user) == Host4(s, user)
  {
    var z, host := s + t, NulAt(s[user..]);
    assert z[user..] == s[user..] + t;
    NulStable(s[user..], t);
    assert z[user..user + host] == s[user..user + host];
    TargetStable(s, t, user + host + 1, s[user..user + host]);
  }

  lemma FinishStable(fmt: Format, s: seq<byte>, t: seq<byte>)
    requires |s| >= 8 && NulAt(s[8..]) < |s[8..]|
    requires Need4(s) == 2 ==> UserEnd(s) <= |s| && NulAt(s[UserEnd(s)..]) < |s[UserEnd(s)..]|
    ensures Finish4(fmt, s + t) == Finish4(fmt, s)
  {
    UserStable(s, t);
    assert (s + t)[4..8] == s[4..8];
    TargetStable(s, t, UserEnd(s), fmt.ipv4(s[4..8]));
    if Need4(s) == 2 {
      HostStable(s, t, UserEnd(s));
    }
  }

  lemma Stable4(fmt: Format, s: seq<byte>, t: seq<byte>)
    requires Decode4(fmt, s).verdict != NeedMore
    ensures Decode4(fmt, s + t) == Decode4(fmt, s)
  {
    TargetStable(s, t, 0, []);
    ScanStable(s, t, 8, Need4(s));
    if ScanFrom(s, 8, Need4(s)).Found? {
      Strings4(s);
      FinishStable(fmt, s, t);
    }
  }

  lemma StableGreeting5(s: seq<byte>, t: seq<byte>)
    requires Greeting5(s).verdict != NeedMore
    ensures Greeting5(s + t) == Greeting5(s)
  {
    var n: int := s[1];
    assert (s + t)[1] == s[1];
    assert (s + t)[2..n + 2] == s[2..n + 2];
  }

  lemma StableRequest5(fmt: Format, s: seq<byte>, t: seq<byte>)
    requires Request5(fmt, s).verdict != NeedMore
    ensures Request5(fmt, s + t) == Request5(fmt, s)
  {
    var z := s + t;
    assert z[0] == s[0] && z[1] == s[1] && z[2] == s[2] && z[3] == s[3] && z[4] == s[4];
    if s[0] == 5 && s[1] == 1 && s[2] == 0 && AddrLen5(s).Some? {
      var start := if s[3] == 3 then 5 else 4;
      var len := AddrLen5(s).value;
      assert z[start..start + len] == s[start..start + len];
      assert z[start + len] == s[start + len] && z[start + len + 1] == s[start + len + 1];
    }
  }

  /** Once the input suffices for a decision, more input does not change it. */
  lemma Stable(fmt: Format, authDone: bool, s: seq<byte>, t: seq<byte>)
    requires Decode(fmt, authDone, s).verdict != NeedMore
    ensures Decode(fmt, authDone, s + t) == Decode(fmt, authDone, s)
  {
    assert (s + t)[0] == s[0];
    if s[0] == 4 {
      Stable4(fmt, s, t);
    } else if s[0] == 5 {
      if authDone { StableRequest5(fmt, s, t); } else { StableGreeting5(s, t); }
    }
  }

  lemma ConsumedIsThere(fmt: Format, authDone: bool, s: seq<byte>)
    ensures Decode(fmt, authDone, s).consumed <= |s|
  {
  }

  // ----- What clients send is what is decoded -----

  predicate NoNul(s: seq<byte>) { forall i :: 0 <= i < |s| ==> s[i] != 0 }

  /** A SOCKS4 request to connect to or, with another command, to serve `ip`. */
  function Request4(cmd: byte, port: uint16, ip: seq<byte>, user: seq<byte>): (r: seq<byte>) {
    [4, cmd, port / 256, port % 256] + ip + user + [0]
  }

  /** A SOCKS4A request for `host`. */
  function Request4a(cmd: byte, port: uint16, x: byte, user: seq<byte>, host: seq<byte>): (r: seq<byte>)
    ensures |r| == |user| + |host| + 10
  {
    [4, cmd, port / 256, port % 256, 0, 0, 0, x] + user + [0] + host + [0]
  }

  /** A SOCKS5 greeting that offers some methods of authentication; section 3 of RFC 1928. */
  function Greeting(methods: seq<byte>): seq<byte>
    requires |methods| < 256
  {
    [5, |methods|] + methods
  }

  /** A SOCKS5 connect request by host name, behind the greeting; section 4 of RFC 1928. */
  function RequestName5(port: uint16, host: seq<byte>): seq<byte>
    requires |host| < 256
  {
    [5, 1, 0, 3, |host|] + host + [port / 256, port % 256]
  }

  /** A SOCKS5 connect request by address: four bytes with type 1 or sixteen with type 4. */
  function RequestAddress5(port: uint16, addr: seq<byte>): seq<byte> {
    [5, 1, 0, if |addr| == 4 then 1 else 4] + addr + [port / 256, port % 256]
  }

  lemma {:induction false} ScanToNul(s: seq<byte>, i: nat, j: nat, need: nat)
    requires i <= j < |s| && i <= SOCKS4_LIMIT + 1 && need > 0 && s[j] == 0
    requires forall k :: i <= k < j ==> s[k] != 0
    ensures ScanFrom(s, i, need) == if j <= SOCKS4_LIMIT + 1 then ScanFrom(s, j, need) else TooLong
    decreases j - i
  {
    if i < j && i <= SOCKS4_LIMIT {
      ScanToNul(s, i + 1, j, need);
    }
  }

  lemma ScanTwo(s: seq<byte>, i: nat, j: nat, e: nat)
    requires i <= j < e < |s| && i <= SOCKS4_LIMIT + 1 && s[j] == 0 && s[e] == 0
    requires forall k :: i <= k < e && k != j ==> s[k] != 0
    ensures ScanFrom(s, i, 2) == if e <= SOCKS4_LIMIT + 1 then Found(e) else TooLong
  {
    ScanToNul(s, i, j, 2);
    if j <= SOCKS4_LIMIT {
      ScanToNul(s, j + 1, e, 1);
    }
  }

  lemma {:induction false} NulIsAt(s: seq<byte>, k: nat)
    requires k < |s| && s[k] == 0 && forall i :: 0 <= i < k ==> s[i] != 0
    ensures NulAt(s) == k
  {
  }

  lemma Layout4a(cmd: byte, port: uint16, x: byte, user: seq<byte>, host: seq<byte>, rest: seq<byte>)
    ensures var s := Request4a(cmd, port, x, user, host) + rest;
            && s[..8] == [4, cmd, port / 256, port % 256, 0, 0, 0, x] && s[8..8 + |user|] == user && s[8 + |user|] == 0
            && s[9 + |user|..9 + |user| + |host|] == host && s[9 + |user| + |host|] == 0
  {
  }

  lemma Scanned4a(s: seq<byte>, j: nat, e: nat)
    requires 8 <= j < e < |s| && NoNul(s[8..j]) && s[j] == 0 && NoNul(s[j + 1..e]) && s[e] == 0
    ensures ScanFrom(s, 8, 2) == if e <= SOCKS4_LIMIT + 1 then Found(e) else TooLong
    ensures NulAt(s[8..]) == j - 8 && NulAt(s[j + 1..]) == e - j - 1
  {
    NulBehind(s, 8, j);
    NulBehind(s, j + 1, e);
    ScanTwo(s, 8, j, e);
  }

  lemma NulBehind(s: seq<byte>, i: nat, j: nat)
    requires i <= j < |s| && NoNul(s[i..j]) && s[j] == 0
    ensures NulAt(s[i..]) == j - i && forall k :: i <= k < j ==> s[k] != 0
  {
    assert forall k :: i <= k < j ==> s[k] == s[i..j][k - i];
    NulIsAt(s[i..], j - i);
  }

  /** Two bytes, the more significant one first, are the port they were made of. */
  lemma PortOfBytes(port: uint16)
    ensures U16(port / 256, port % 256) == port
  {
  }

  /** What a SOCKS4 request with complete strings gets: it is served exactly if its command is to connect. */
  function Judged4(cmd: byte, consumed: nat, path: Text, port: uint16): Decision {
    if cmd == 1 then Decision(Accept, consumed, Replace(path, port), [0, 90, 0, 0, 0, 0, 0, 0])
    else Decision(Reject, consumed, Replace(path, port), [])
  }

  /**
   * A whole SOCKS4A request is served with its host and port exactly if its command is to connect and its last byte
   * is within the scan's limit, and otherwise refused.
   */
  lemma Request4aIsDecoded(fmt: Format, authDone: bool, cmd: byte, port: uint16, x: byte, user: seq<byte>,
                           host: seq<byte>, rest: seq<byte>)
    requires NoNul(user) && NoNul(host) && x != 0
    ensures Decode(fmt, authDone, Request4a(cmd, port, x, user, host) + rest)
         == if |user| + |host| + 10 <= 1026 then Judged4(cmd, |user| + |host| + 10, host, port)
            else Decision(Reject, 0, Keep, [])
  {
    var s := Request4a(cmd, port, x, user, host) + rest;
    Layout4a(cmd, port, x, user, host, rest);
    FrontOf4(s, [4, cmd, port / 256, port % 256, 0, 0, 0, x]);
    PortOfBytes(port);
    DecodeOfLayout(fmt, authDone, s, user, host);
  }

  lemma FrontOf4(s: seq<byte>, front: seq<byte>)
    requires |s| >= 8 && s[..8] == front
    ensures s[0] == front[0] && s[1] == front[1] && s[2] == front[2] && s[3] == front[3]
    ensures s[4] == front[4] && s[5] == front[5] && s[6] == front[6] && s[7] == front[7]
  {
  }

  lemma DecodeOfLayout(fmt: Format, authDone: bool, s: seq<byte>, user: seq<byte>, host: seq<byte>)
    requires |s| >= |user| + |host| + 10 && s[0] == 4 && Need4(s) == 2
    requires NoNul(user) && s[8..8 + |user|] == user && s[8 + |user|] == 0
    requires NoNul(host) && s[9 + |user|..9 + |user| + |host|] == host && s[9 + |user| + |host|] == 0
    ensures Decode(fmt, authDone, s)
         == if |user| + |host| + 9 <= SOCKS4_LIMIT + 1 then Target4(s, |user| + |host| + 10, host) else Refuse(0, Keep)
  {
    Scanned4a(s, 8 + |user|, 9 + |user| + |host|);
  }

  /** A SOCKS4 address that does not announce a host name. */
  predicate PlainAddress(ip: seq<byte>) {
    |ip| == 4 && !(ip[0] == 0 && ip[1] == 0 && ip[2] == 0 && ip[3] != 0)
  }

  lemma Layout4(cmd: byte, port: uint16, ip: seq<byte>, user: seq<byte>, rest: seq<byte>)
    requires |ip| == 4
    ensures var s := Request4(cmd, port, ip, user) + rest;
            && |s| >= |user| + 9 && s[..8] == [4, cmd, port / 256, port % 256] + ip && s[4..8] == ip
            && s[8..8 + |user|] == user && s[8 + |user|] == 0
  {
  }

  lemma ScanOne(s: seq<byte>, j: nat)
    requires 8 <= j < |s| && NoNul(s[8..j]) && s[j] == 0
    ensures ScanFrom(s, 8, 1) == if j <= SOCKS4_LIMIT + 1 then Found(j) else TooLong
    ensures NulAt(s[8..]) == j - 8
  {
    NulBehind(s, 8, j);
    ScanToNul(s, 8, j, 1);
  }

  /** A whole SOCKS4 request is served with its address and port, by the same rule. */
  lemma Request4IsDecoded(fmt: Format, authDone: bool, cmd: byte, port: uint16, ip: seq<byte>, user: seq<byte>,
                          rest: seq<byte>)
    requires PlainAddress(ip) && NoNul(user)
    ensures Decode(fmt, authDone, Request4(cmd, port, ip, user) + rest)
         == if |user| + 9 <= 1026 then Judged4(cmd, |user| + 9, fmt.ipv4(ip), port) else Decision(Reject, 0, Keep, [])
  {
    var s := Request4(cmd, port, ip, user) + rest;
    Layout4(cmd, port, ip, user, rest);
    FrontOf4(s, [4, cmd, port / 256, port % 256] + ip);
    PortOfBytes(port);
    ScanOne(s, 8 + |user|);
  }

  lemma Layout5(front: seq<byte>, addr: seq<byte>, port: uint16, rest: seq<byte>)
    ensures var s := front + addr + [port / 256, port % 256] + rest;
            && |s| >= |front| + |addr| + 2 && s[..|front|] == front && s[|front|..|front| + |addr|] == addr
            && s[|front| + |addr|] == port / 256 && s[|front| + |addr| + 1] == port % 256
  {
  }

  /** A SOCKS5 request by name is served with the name cut at its first NUL. */
  lemma RequestName5IsDecoded(fmt: Format, port: uint16, host: seq<byte>, rest: seq<byte>)
    requires |host| < 256
    ensures Decode(fmt, true, RequestName5(port, host) + rest)
         == Decision(Accept, |host| + 7, Replace(host[..NulAt(host)], port), [5, 0, 0, 1, 0, 0, 0, 0, 0, 0])
  {
    var front := [5, 1, 0, 3, |host|];
    var s := RequestName5(port, host) + rest;
    Layout5(front, host, port, rest);
    PortOfBytes(port);
    RequestOfLayout(fmt, s, host);
  }

  lemma RequestOfLayout(fmt: Format, s: seq<byte>, host: seq<byte>)
    requires |host| < 256 && |s| >= |host| + 7 && s[..5] == [5, 1, 0, 3, |host|] && s[5..5 + |host|] == host
    ensures Decode(fmt, true, s)
         == Decision(Accept, |host| + 7, Replace(host[..NulAt(host)], U16(s[5 + |host|], s[6 + |host|])),
                     [5, 0, 0, 1, 0, 0, 0, 0, 0, 0])
  {
    var front := s[..5];
    assert s[0] == front[0] && s[1] == front[1] && s[2] == front[2] && s[3] == front[3] && s[4] == front[4];
  }

  /** A SOCKS5 request by address is served with its text, unless the C library has none for it. */
  lemma RequestAddress5IsDecoded(fmt: Format, port: uint16, addr: seq<byte>, rest: seq<byte>)
    requires |addr| == 4 || |addr| == 16
    ensures var path := if |addr| == 4 then Some(fmt.ipv4(addr)) else fmt.ipv6(addr);
            var d := Decode(fmt, true, RequestAddress5(port, addr) + rest);
            if path.Some?
            then d == Decision(Accept, |addr| + 6, Replace(path.value, port), [5, 0, 0, 1, 0, 0, 0, 0, 0, 0])
            else d == Decision(Reject, |addr| + 6, Forget, [])
  {
    var front := [5, 1, 0, if |addr| == 4 then 1 else 4];
    var s := RequestAddress5(port, addr) + rest;
    Layout5(front, addr, port, rest);
    assert s[0] == s[..4][0] && s[1] == s[..4][1] && s[2] == s[..4][2] && s[3] == s[..4][3];
    PortOfBytes(port);
  }

  /** Any other SOCKS5 request is refused as soon as its first five bytes are there. */
  lemma OtherRequest5IsRefused(fmt: Format, s: seq<byte>)
    requires |s| >= 5 && s[0] == 5
    requires !(s[1] == 1 && s[2] == 0 && (s[3] == 1 || s[3] == 3 || s[3] == 4))
    ensures Decode(fmt, true, s) == Decision(Reject, 0, Keep, [])
  {
  }

  /** A greeting is answered exactly if it offers to do without authentication, which is method 0. */
  lemma GreetingIsDecoded(fmt: Format, methods: seq<byte>, rest: seq<byte>)
    requires |methods| < 256 && (methods != [] || rest != [])
    ensures Decode(fmt, false, Greeting(methods) + rest)
         == if 0 in methods then Decision(AuthDone, |methods| + 2, Keep, [5, 0]) else Decision(Reject, 0, Keep, [])
  {
    var s := Greeting(methods) + rest;
    assert s[0] == 5 && s[1] == |methods| && s[2..|methods| + 2] == methods;
  }

  /** Another version is refused. */
  lemma OtherVersionIsRefused(fmt: Format, authDone: bool, s: seq<byte>)
    requires |s| >= 3 && s[0] != 4 && s[0] != 5
    ensures Decode(fmt, authDone, s) == Decision(Reject, 0, Keep, [])
  {
  }

  // ----- The channel -----

  datatype Status = Pending | Opening | Zombie

  datatype Chan = Chan(status: Status, authDone: bool, input: seq<byte>, output: seq<byte>, path: Option<Text>,
                       port: nat)

  function NewPath(target: Target, path: Option<Text>): Option<Text> {
    match target
    case Keep => path
    case Forget => None
    case Replace(p, _) => Some(p)
  }

  function NewPort(target: Target, port: nat): nat {
    if target.Replace? then target.port else port
  }

  /** What a decision does to the channel. */
  function Apply(c: Chan, d: Decision): Chan
    requires d.consumed <= |c.input|
  {
    var status := match d.verdict case Reject => Zombie case Accept => Opening case _ => c.status;
    Chan(status, c.authDone || d.verdict == AuthDone, c.input[d.consumed..], c.output + d.reply,
         NewPath(d.target, c.path), NewPort(d.target, c.port))
  }

  /** `channel_pre_dynamic` */
  function PreDynamic(fmt: Format, c: Chan): Chan {
    ConsumedIsThere(fmt, c.authDone, c.input);
    Apply(c, Decode(fmt, c.authDone, c.input))
  }

  /** A channel and the bytes its client has sent but the channel has not read. */
  datatype Sys = Sys(c: Chan, unread: seq<byte>)

  datatype Event = Read(n: nat) | Poll

  /** Reads of any size and decoding attempts, in any order. */
  function Step(fmt: Format, y: Sys, ev: Event): Sys {
    if y.c.status != Pending then y
    else
      match ev
      case Read(n) =>
        var k := if n <= |y.unread| then n else |y.unread|;
        Sys(y.c.(input := y.c.input + y.unread[..k]), y.unread[k..])
      case Poll => y.(c := PreDynamic(fmt, y.c))
  }

  function Run(fmt: Format, y: Sys, evs: seq<Event>): Sys
    decreases |evs|
  {
    if evs == [] then y else Step(fmt, Run(fmt, y, evs[..|evs| - 1]), evs[|evs| - 1])
  }

  /** Nothing is left to read and another look at the input changes nothing. */
  predicate Settled(fmt: Format, y: Sys) {
    y.c.status != Pending || (y.unread == [] && Decode(fmt, y.c.authDone, y.c.input).verdict == NeedMore)
  }

  /** The outcome if everything had been there from the start: verdict, target, replies and what follows the request. */
  datatype Outcome = Outcome(status: Status, authDone: bool, path: Option<Text>, port: nat, output: seq<byte>,
                             rest: seq<byte>)

  function AllAtOnce(fmt: Format, c: Chan): Outcome
    decreases !c.authDone
  {
    if c.status != Pending then Outcome(c.status, c.authDone, c.path, c.port, c.output, c.input)
    else
      var c' := PreDynamic(fmt, c);
      if c'.authDone && !c.authDone then AllAtOnce(fmt, c')
      else Outcome(c'.status, c'.authDone, c'.path, c'.port, c'.output, c'.input)
  }

  /** The outcome of a state, supposing all unread bytes were already in the input. */
  function OutcomeOf(fmt: Format, y: Sys): Outcome {
    AllAtOnce(fmt, y.c.(input := y.c.input + y.unread))
  }

  /** A request for more input leaves the channel alone. */
  lemma MoreChangesNothing(fmt: Format, c: Chan)
    requires Decode(fmt, c.authDone, c.input).verdict == NeedMore
    ensures PreDynamic(fmt, c) == c
  {
    assert Decode(fmt, c.authDone, c.input) == MORE;
    assert c.input[0..] == c.input && c.output + [] == c.output;
  }

  lemma PollKeepsOutcome(fmt: Format, y: Sys)
    requires y.c.status == Pending
    ensures OutcomeOf(fmt, Step(fmt, y, Poll)) == OutcomeOf(fmt, y)
  {
    if Decode(fmt, y.c.authDone, y.c.input).verdict != NeedMore {
      PreDynamicStable(fmt, y.c, y.unread);
      Stable(fmt, y.c.authDone, y.c.input, y.unread);
      UnfoldOutcome(fmt, y.c.(input := y.c.input + y.unread));
    } else {
      MoreChangesNothing(fmt, y.c);
    }
  }

  /** A decision that was reached may as well be taken first. */
  lemma UnfoldOutcome(fmt: Format, c: Chan)
    requires c.status == Pending && Decode(fmt, c.authDone, c.input).verdict != NeedMore
    ensures AllAtOnce(fmt, c) == AllAtOnce(fmt, PreDynamic(fmt, c))
  {
    AuthOnlyOnce(fmt, c.authDone, c.input);
  }

  lemma AuthOnlyOnce(fmt: Format, authDone: bool, s: seq<byte>)
    ensures authDone ==> Decode(fmt, authDone, s).verdict != AuthDone
  {
  }

  lemma PreDynamicStable(fmt: Format, c: Chan, t: seq<byte>)
    requires Decode(fmt, c.authDone, c.input).verdict != NeedMore
    ensures PreDynamic(fmt, c.(input := c.input + t)) == PreDynamic(fmt, c).(input := PreDynamic(fmt, c).input + t)
  {
    Stable(fmt, c.authDone, c.input, t);
    ConsumedIsThere(fmt, c.authDone, c.input);
    ApplyStable(c, Decode(fmt, c.authDone, c.input), t);
  }

  lemma ApplyStable(c: Chan, d: Decision, t: seq<byte>)
    requires d.consumed <= |c.input| && d.verdict != NeedMore
    ensures Apply(c.(input := c.input + t), d) == Apply(c, d).(input := Apply(c, d).input + t)
  {
    assert (c.input + t)[d.consumed..] == c.input[d.consumed..] + t;
  }

  lemma StepKeepsOutcome(fmt: Format, y: Sys, ev: Event)
    ensures OutcomeOf(fmt, Step(fmt, y, ev)) == OutcomeOf(fmt, y)
  {
    if y.c.status == Pending {
      match ev
      case Read(n) =>
        var k := if n <= |y.unread| then n else |y.unread|;
        assert y.c.input + y.unread[..k] + y.unread[k..] == y.c.input + y.unread;
      case Poll => PollKeepsOutcome(fmt, y);
    }
  }

  lemma {:induction false} RunKeepsOutcome(fmt: Format, y: Sys, evs: seq<Event>)
    ensures OutcomeOf(fmt, Run(fmt, y, evs)) == OutcomeOf(fmt, y)
    decreases |evs|
  {
    if evs != [] {
      RunKeepsOutcome(fmt, y, evs[..|evs| - 1]);
      StepKeepsOutcome(fmt, Run(fmt, y, evs[..|evs| - 1]), evs[|evs| - 1]);
    }
  }

  lemma SettledOutcome(fmt: Format, y: Sys)
    requires Settled(fmt, y)
    ensures OutcomeOf(fmt, y) == Outcome(y.c.status, y.c.authDone, y.c.path, y.c.port, y.c.output, y.c.input + y.unread)
  {
    assert y.unread == [] ==> y.c.input + y.unread == y.c.input;
    if y.c.status == Pending { MoreChangesNothing(fmt, y.c); }
  }

  /** However the bytes are split over reads and attempts, every settled run ends the same. */
  lemma ChunkingIsIrrelevant(fmt: Format, y: Sys, evs: seq<Event>, evs': seq<Event>)
    requires Settled(fmt, Run(fmt, y, evs)) && Settled(fmt, Run(fmt, y, evs'))
    ensures var r, r' := Run(fmt, y, evs), Run(fmt, y, evs');
            && r.c.status == r'.c.status && r.c.path == r'.c.path && r.c.port == r'.c.port && r.c.output == r'.c.output
            && r.c.input + r.unread == r'.c.input + r'.unread
  {
    RunKeepsOutcome(fmt, y, evs);
    RunKeepsOutcome(fmt, y, evs');
    SettledOutcome(fmt, Run(fmt, y, evs));
    SettledOutcome(fmt, Run(fmt, y, evs'));
  }

  // ----- Whole dialogues -----

  /** A new channel whose client has sent `bytes`. */
  function Fresh(bytes: seq<byte>): Sys {
    Sys(Chan(Pending, false, [], [], None, 0), bytes)
  }

  /** The channel connects to `path` and `port`, has replied, and passes on the bytes behind the request. */
  predicate Serves(y: Sys, path: Text, port: nat, replies: seq<byte>, rest: seq<byte>) {
    && y.c.status == Opening && y.c.path == Some(path) && y.c.port == port
    && y.c.output == replies && y.c.input + y.unread == rest
  }

  lemma DecidedAtOnce(fmt: Format, c: Chan, d: Decision)
    requires c.status == Pending && Decode(fmt, c.authDone, c.input) == d && d.verdict == Accept
    requires d.target.Replace? && d.consumed <= |c.input|
    ensures AllAtOnce(fmt, c) == Outcome(Opening, c.authDone, Some(d.target.path), d.target.port, c.output + d.reply,
                                         c.input[d.consumed..])
  {
  }

  lemma SettledServes(fmt: Format, bytes: seq<byte>, evs: seq<Event>, authDone: bool, path: Text, port: nat,
                      replies: seq<byte>, rest: seq<byte>)
    requires Settled(fmt, Run(fmt, Fresh(bytes), evs))
    requires AllAtOnce(fmt, Fresh(bytes).c.(input := bytes))
          == Outcome(Opening, authDone, Some(path), port, replies, rest)
    ensures Serves(Run(fmt, Fresh(bytes), evs), path, port, replies, rest)
  {
    assert [] + bytes == bytes;
    RunKeepsOutcome(fmt, Fresh(bytes), evs);
    SettledOutcome(fmt, Run(fmt, Fresh(bytes), evs));
  }

  /** However its bytes arrive, a SOCKS4A client gets the host and the port it asked for. */
  lemma Client4aIsServed(fmt: Format, port: uint16, x: byte, user: seq<byte>, host: seq<byte>, rest: seq<byte>,
                         evs: seq<Event>)
    requires NoNul(user) && NoNul(host) && x != 0 && |user| + |host| + 10 <= 1026
    requires Settled(fmt, Run(fmt, Fresh(Request4a(1, port, x, user, host) + rest), evs))
    ensures Serves(Run(fmt, Fresh(Request4a(1, port, x, user, host) + rest), evs), host, port,
                   [0, 90, 0, 0, 0, 0, 0, 0], rest)
  {
    var request := Request4a(1, port, x, user, host);
    Request4aIsDecoded(fmt, false, 1, port, x, user, host, rest);
    Behind(request, rest);
    DecidedAtOnce(fmt, Fresh([]).c.(input := request + rest), Judged4(1, |user| + |host| + 10, host, port));
    assert [] + [0, 90, 0, 0, 0, 0, 0, 0] == [0, 90, 0, 0, 0, 0, 0, 0];
    SettledServes(fmt, request + rest, evs, false, host, port, [0, 90, 0, 0, 0, 0, 0, 0], rest);
  }

  lemma Behind(a: seq<byte>, b: seq<byte>)
    ensures (a + b)[|a|..] == b
  {
  }

  /** The outcome of a whole SOCKS5 dialogue is that of the request, after the reply to the greeting. */
  lemma AfterGreeting(fmt: Format, methods: seq<byte>, tail: seq<byte>)
    requires |methods| < 256 && 0 in methods
    ensures AllAtOnce(fmt, Fresh([]).c.(input := Greeting(methods) + tail))
         == AllAtOnce(fmt, Chan(Pending, true, tail, [5, 0], None, 0))
  {
    GreetingIsDecoded(fmt, methods, tail);
    Behind(Greeting(methods), tail);
    assert [] + [5, 0] == [5, 0];
    var c := Fresh([]).c.(input := Greeting(methods) + tail);
    assert PreDynamic(fmt, c) == Chan(Pending, true, tail, [5, 0], None, 0);
  }

  lemma Outcome5(fmt: Format, methods: seq<byte>, request: seq<byte>, rest: seq<byte>, reply: seq<byte>, path: Text,
                 port: nat)
    requires |methods| < 256 && 0 in methods
    requires Decode(fmt, true, request + rest) == Decision(Accept, |request|, Replace(path, port), reply)
    ensures AllAtOnce(fmt, Fresh([]).c.(input := Greeting(methods) + (request + rest)))
         == Outcome(Opening, true, Some(path), port, [5, 0] + reply, rest)
  {
    AfterGreeting(fmt, methods, request + rest);
    Behind(request, rest);
    DecidedAtOnce(fmt, Chan(Pending, true, request + rest, [5, 0], None, 0),
                  Decision(Accept, |request|, Replace(path, port), reply));
  }

  lemma Dialogue5(fmt: Format, methods: seq<byte>, request: seq<byte>, rest: seq<byte>, reply: seq<byte>,
                  evs: seq<Event>, path: Text, port: nat)
    requires |methods| < 256 && 0 in methods
    requires Decode(fmt, true, request + rest) == Decision(Accept, |request|, Replace(path, port), reply)
    requires Settled(fmt, Run(fmt, Fresh(Greeting(methods) + (request + rest)), evs))
    ensures Serves(Run(fmt, Fresh(Greeting(methods) + (request + rest)), evs), path, port, [5, 0] + reply, rest)
  {
    Outcome5(fmt, methods, request, rest, reply, path, port);
    SettledServes(fmt, Greeting(methods) + (request + rest), evs, true, path, port, [5, 0] + reply, rest);
  }

  /** However its bytes arrive, a SOCKS5 client gets the name or address and the port it asked for. */
  lemma Client5IsServed(fmt: Format, methods: seq<byte>, port: uint16, host: seq<byte>, rest: seq<byte>,
                        evs: seq<Event>)
    requires |methods| < 256 && 0 in methods && |host| < 256 && NoNul(host)
    requires Settled(fmt, Run(fmt, Fresh(Greeting(methods) + (RequestName5(port, host) + rest)), evs))
    ensures Serves(Run(fmt, Fresh(Greeting(methods) + (RequestName5(port, host) + rest)), evs), host, port,
                   [5, 0] + [5, 0, 0, 1, 0, 0, 0, 0, 0, 0], rest)
  {
    RequestName5IsDecoded(fmt, port, host, rest);
    assert NulAt(host) == |host| && host[..|host|] == host;
    Dialogue5(fmt, methods, RequestName5(port, host), rest, [5, 0, 0, 1, 0, 0, 0, 0, 0, 0], evs, host, port);
  }

  /** One look decides, or asks for more, or gets past the greeting. */
  lemma OneLook(fmt: Format, y: Sys)
    requires y.c.status == Pending && y.unread == []
    ensures var y' := Step(fmt, y, Poll);
            y'.unread == [] && (Settled(fmt, y') || (!y.c.authDone && y'.c.authDone && y'.c.status == Pending))
  {
    if Decode(fmt, y.c.authDone, y.c.input).verdict == NeedMore { MoreChangesNothing(fmt, y.c); }
    AuthOnlyOnce(fmt, y.c.authDone, y.c.input);
  }

  lemma SettledLook(fmt: Format, y: Sys)
    requires Settled(fmt, y)
    ensures Step(fmt, y, Poll) == y
  {
    if y.c.status == Pending { MoreChangesNothing(fmt, y.c); }
  }

  /** Reading everything and looking twice settles every channel. */
  lemma SomeRunSettles(fmt: Format, y: Sys)
    ensures Settled(fmt, Step(fmt, Step(fmt, Step(fmt, y, Read(|y.unread|)), Poll), Poll))
  {
    var y1 := Step(fmt, y, Read(|y.unread|));
    if y.c.status == Pending {
      assert y1.unread == [] && y1.c.status == Pending;
      OneLook(fmt, y1);
      var y2 := Step(fmt, y1, Poll);
      if Settled(fmt, y2) { SettledLook(fmt, y2); } else { OneLook(fmt, y2); }
    }
  }
}

/** The decoders as methods on a channel object. */
module SocksObject {
  import opened Bytes
  import opened Options
  import opened Socks

  class DynamicChannel {
    var status: Status
    var authDone: bool
    var input: seq<byte>
    var output: seq<byte>
    var path: Option<Text>
    var port: nat

    ghost function View(): Chan
      reads this
    {
      Chan(status, authDone, input, output, path, port)
    }

    constructor ()
      ensures View() == Chan(Pending, false, [], [], None, 0)
    {
      status, authDone, input, output, path, port := Pending, false, [], [], None, 0;
    }

    /** The scan for the terminating NULs. */
    method ScanStrings(need: nat) returns (r: Scan)
      requires |input| >= 8 && need > 0
      ensures r == ScanFrom(input, 8, need)
    {
      var found, i := 0, 8;
      while i < |input|
        invariant 8 <= i <= |input| && found < need
        invariant ScanFrom(input, i, need - found) == ScanFrom(input, 8, need)
      {
        if input[i] == 0 {
          found := found + 1;
          if found == need {
            return Found(i);
          }
        }
        if i > SOCKS4_LIMIT {
          return TooLong;
        }
        i := i + 1;
      }
      r := Missing;
    }

    /** The search for the method "no authentication". */
    method OffersNoAuth(n: nat) returns (found: bool)
      requires n + 2 <= |input|
      ensures found <==> 0 in input[2..n + 2]
    {
      found := false;
      var i := 2;
      while i < n + 2
        invariant 2 <= i <= n + 2
        invariant !found && 0 !in input[2..i]
      {
        if input[i] == 0 {
          assert input[2..n + 2][i - 2] == 0;
          return true;
        }
        assert input[2..i + 1] == input[2..i] + [input[i]];
        i := i + 1;
      }
    }

    /** What decision `d`, taken on input `s`, left in the buffers and returned. */
    ghost predicate Decided(d: Decision, s: seq<byte>, out: seq<byte>, path0: Option<Text>, port0: nat, ret: int)
      reads this
    {
      && d.consumed <= |s| && input == s[d.consumed..] && output == out + d.reply
      && ret == (if d.verdict == Accept then 1 else if d.verdict == Reject then -1 else 0)
      && path == NewPath(d.target, path0) && port == NewPort(d.target, port0)
    }

    /** `channel_decode_socks4`: the buffer is consumed step by step once the strings are complete. */
    method DecodeSocks4(fmt: Format) returns (ret: int)
      requires status == Pending && |input| >= 3 && input[0] == 4
      modifies this`input, this`output, this`path, this`port
      ensures Decided(Decode(fmt, old(authDone), old(input)), old(input), old(output), old(path), old(port), ret)
      ensures ret == 0 ==> input == old(input) && path == old(path) && port == old(port)
    {
      assert output + [] == output;
      if |input| < 8 {
        return 0;
      }
      var s := input;
      var need := if s[4] == 0 && s[5] == 0 && s[6] == 0 && s[7] != 0 then 2 else 1;
      var scan := ScanStrings(need);
      if scan == TooLong {
        return -1;
      }
      if scan == Missing {
        return 0;
      }
      Strings4(s);
      ret := CutStrings(fmt, need);
    }

    /** The part of `channel_decode_socks4` that consumes the request. */
    method CutStrings(fmt: Format, need: nat) returns (ret: int)
      requires |input| >= 8 && need == Need4(input) && UserEnd(input) <= |input|
      requires need == 2 ==> NulAt(input[UserEnd(input)..]) < |input[UserEnd(input)..]|
      modifies this`input, this`output, this`path, this`port
      ensures ret != 0 && Decided(Finish4(fmt, old(input)), old(input), old(output), old(path), old(port), ret)
    {
      ghost var s := input;
      var command, hi, lo, addr := input[1], input[2], input[3], input[4..8];
      input := input[8..];
      var len := NulAt(input) + 1;
      input := input[len..];
      assert input == s[UserEnd(s)..];
      path := None;
      if need == 1 {
        path := Some(fmt.ipv4(addr));
        ret := Judge(command, hi, lo);
      } else {
        ret := CutHost(s, UserEnd(s), command, hi, lo);
      }
    }

    /** The second string of SOCKS4A. */
    method CutHost(ghost s: seq<byte>, ghost user: nat, command: byte, hi: byte, lo: byte) returns (ret: int)
      requires 8 <= user <= |s| && input == s[user..] && NulAt(input) < |input| && path == None
      requires command == s[1] && hi == s[2] && lo == s[3]
      modifies this`input, this`output, this`path, this`port
      ensures ret != 0 && Decided(Host4(s, user), s, old(output), old(path), old(port), ret)
    {
      var len := NulAt(input) + 1;
      if len > NI_MAXHOST {
        assert output + [] == output;
        return -1;
      }
      path := Some(input[..len - 1]);
      assert input[..len - 1] == s[user..user + len - 1];
      input := input[len..];
      assert input == s[user + len..];
      ret := Judge(command, hi, lo);
    }

    /** The end of `channel_decode_socks4`: only the command "connect" is served. */
    method Judge(command: byte, hi: byte, lo: byte) returns (ret: int)
      modifies this`output, this`port
      ensures port == U16(hi, lo) && ret == (if command == 1 then 1 else -1)
      ensures output == old(output) + (if command == 1 then [0, 90, 0, 0, 0, 0, 0, 0] else [])
    {
      port := U16(hi, lo);
      if command != 1 {
        assert output + [] == output;
        return -1;
      }
      output := output + [0, 90, 0, 0, 0, 0, 0, 0];
      ret := 1;
    }

    /** `channel_decode_socks5` */
    method DecodeSocks5(fmt: Format) returns (ret: int)
      requires status == Pending && |input| >= 3 && input[0] == 5
      modifies this`input, this`output, this`path, this`port, this`authDone
      ensures Decided(Decode(fmt, old(authDone), old(input)), old(input), old(output), old(path), old(port), ret)
      ensures authDone == (old(authDone) || Decode(fmt, old(authDone), old(input)).verdict == AuthDone)
      ensures ret == 0 ==> path == old(path) && port == old(port)
    {
      assert output + [] == output && input[0..] == input;
      if !authDone {
        var n: int := input[1];
        if |input| < n + 2 {
          return 0;
        }
        var found := OffersNoAuth(n);
        if !found {
          return -1;
        }
        input := input[n + 2..];
        output := output + [5, 0];
        authDone := true;
        return 0;
      }
      ret := DecodeRequest5(fmt);
    }

    /** The second half of `channel_decode_socks5`, after authentication. */
    method DecodeRequest5(fmt: Format) returns (ret: int)
      modifies this`input, this`output, this`path, this`port
      ensures Decided(Request5(fmt, old(input)), old(input), old(output), old(path), old(port), ret)
      ensures ret == 0 ==> path == old(path) && port == old(port)
    {
      assert output + [] == output && input[0..] == input;
      if |input| < 5 {
        return 0;
      }
      if input[0] != 5 || input[1] != 1 || input[2] != 0 {
        return -1;
      }
      var atyp, addrlen := input[3], AddrLen5(input);
      if addrlen.None? {
        return -1;
      }
      var len := addrlen.value;
      var start := if atyp == 3 then 5 else 4;
      if |input| < start + len + 2 {
        return 0;
      }
      var addr, hi, lo := input[start..start + len], input[start + len], input[start + len + 1];
      input := input[start + len + 2..];
      path := None;
      var name :=
        if atyp == 3 then Some(addr[..NulAt(addr)])
        else if atyp == 1 then Some(fmt.ipv4(addr))
        else fmt.ipv6(addr);
      if name.None? {
        return -1;
      }
      path, port := name, U16(hi, lo);
      output := output + [5, 0, 0, 1, 0, 0, 0, 0, 0, 0];
      ret := 1;
    }

    /** The part of `channel_pre_dynamic` that picks a decoder. */
    method Dispatch(fmt: Format) returns (ret: int)
      requires status == Pending && |input| >= 3
      modifies this`input, this`output, this`path, this`port, this`authDone
      ensures Decided(Decode(fmt, old(authDone), old(input)), old(input), old(output), old(path), old(port), ret)
      ensures authDone == (old(authDone) || Decode(fmt, old(authDone), old(input)).verdict == AuthDone)
    {
      if input[0] == 4 {
        NoAuth4(fmt, input);
        ret := DecodeSocks4(fmt);
      } else if input[0] == 5 {
        ret := DecodeSocks5(fmt);
      } else {
        ret := -1;
        assert output + [] == output && input[0..] == input;
      }
    }

    /** `channel_pre_dynamic` */
    method PreDynamic(fmt: Format)
      requires status == Pending
      modifies this
      ensures View() == Socks.PreDynamic(fmt, old(View()))
    {
      if |input| < 3 {
        assert input[0..] == input && output + [] == output;
        return;
      }
      ghost var c, d := View(), Decode(fmt, authDone, input);
      var ret := Dispatch(fmt);
      if ret < 0 {
        status := Zombie;
      } else if ret > 0 {
        status := Opening;
      }
      assert View() == Apply(c, d);
    }
  }

  lemma NoAuth4(fmt: Format, s: seq<byte>)
    ensures Decode4(fmt, s).verdict != AuthDone
  {
  }
}
