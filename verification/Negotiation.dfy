/** KEXINIT messages and algorithm negotiation: section 7.1 of RFC 4253 as kex.c and match.c implement it. */
module Negotiation {
  import opened Bytes
  import opened NameLists
  import opened Options
  import opened Wire

  const MAX_PROP := 40
  const KEX_COOKIE_LEN := 16
  const PROPOSAL_MAX := 10

  // ----- match_list -----

  /** `n` is in both lists, and no name before it in `mine` is in `theirs`. */
  ghost predicate IsFirstCommon(mine: seq<Name>, theirs: seq<Name>, n: Name) {
    n in theirs && exists i :: 0 <= i < |mine| && mine[i] == n && forall j :: 0 <= j < i ==> mine[j] !in theirs
  }

  /** The first of `mine` that is also in `theirs`. */
  function FirstCommon(mine: seq<Name>, theirs: seq<Name>): (r: Option<Name>)
    ensures r.None? <==> forall n :: n in mine ==> n !in theirs
    ensures r.Some? ==> IsFirstCommon(mine, theirs, r.value)
  {
    if mine == [] then None
    else if mine[0] in theirs then Some(mine[0])
    else
      var r := FirstCommon(mine[1..], theirs);
      assert r.Some? ==> IsFirstCommon(mine, theirs, r.value) by {
        if r.Some? { FirstCommonOfTail(mine, theirs, r.value); }
      }
      r
  }

  lemma FirstCommonOfTail(mine: seq<Name>, theirs: seq<Name>, n: Name)
    requires mine != [] && mine[0] !in theirs && IsFirstCommon(mine[1..], theirs, n)
    ensures IsFirstCommon(mine, theirs, n)
  {
    var rest := mine[1..];
    var i :| 0 <= i < |rest| && rest[i] == n && forall j :: 0 <= j < i ==> rest[j] !in theirs;
    assert mine[i + 1] == n;
    assert forall j :: 0 < j < i + 1 ==> mine[j] == rest[j - 1];
  }

  function Truncate(s: seq<Name>, n: nat): seq<Name> {
    if |s| <= n then s else s[..n]
  }

  /** `match_list`: only the first MAX_PROP names of the server are considered. */
  function MatchList(client: Name, server: Name): Option<Name> {
    FirstCommon(Names(client), Truncate(Names(server), MAX_PROP))
  }

  // ----- The KEXINIT payload -----

  type Proposal = p: seq<Name> | |p| == 10 witness [[], [], [], [], [], [], [], [], [], []]

  const NUL: byte := 0

  function Strings(p: seq<Name>): (r: seq<Item>)
    ensures |r| == |p| && forall i :: 0 <= i < |p| ==> r[i] == String(p[i])
  {
    if p == [] then [] else [String(p[0])] + Strings(p[1..])
  }

  /** `kex_prop2buf` with the cookie `kex_send_kexinit` writes over the dummy one. */
  function Kexinit(cookie: seq<byte>, p: Proposal): seq<byte> {
    cookie + (EncodeAll(Strings(p)) + (Encode(Char(0)) + Encode(Int(0))))
  }

  /** `buffer_get_cstring`: an embedded NUL is refused, a final one cut off. */
  function GetCstring(s: seq<byte>): Got<Name> {
    match GetString(s)
    case Bad => Bad
    case Got(v, rest) =>
      if NUL !in v then Got(v, rest)
      else if NUL !in v[..|v| - 1] then Got(v[..|v| - 1], rest)
      else Bad
  }

  function GetNames(n: nat, s: seq<byte>): (r: Got<seq<Name>>)
    ensures r.Got? ==> |r.value| == n
  {
    if n == 0 then Got([], s)
    else
      match GetCstring(s)
      case Bad => Bad
      case Got(v, rest) =>
        match GetNames(n - 1, rest)
        case Bad => Bad
        case Got(vs, rest') => Got([v] + vs, rest')
  }

  datatype Parsed = Parsed(prop: Proposal, firstKexFollows: bool)

  /** `kex_buf2prop`; None where the source calls `fatal`. */
  function ParseKexinit(s: seq<byte>): Option<Parsed> {
    if |s| < KEX_COOKIE_LEN then None
    else
      match GetNames(PROPOSAL_MAX, s[KEX_COOKIE_LEN..])
      case Bad => None
      case Got(p, rest) =>
        match Decode(KChar, rest)
        case Bad => None
        case Got(c, rest') =>
          match Decode(KInt, rest')
          case Bad => None
          case Got(_, _) => Some(Parsed(p, c.Char? && c.c != 0))
  }

  /** C strings, of any length that the machine can count. */
  predicate Plain(p: seq<Name>) {
    forall i :: 0 <= i < |p| ==> NUL !in p[i] && |p[i]| < U32
  }

  /** A proposal the reader accepts: every name list is within the string limit. */
  predicate Sendable(p: seq<Name>) {
    forall i :: 0 <= i < |p| ==> |p[i]| <= 256 * 1024
  }

  lemma {:induction false} NamesRoundTrip(p: seq<Name>, tail: seq<byte>)
    requires Plain(p)
    ensures GetNames(|p|, EncodeAll(Strings(p)) + tail) == if Sendable(p) then Got(p, tail) else Bad
  {
    if p != [] {
      NamesRoundTrip(p[1..], tail);
      SendableCons(p);
      FirstName(p, tail);
      assert [p[0]] + p[1..] == p;
    }
  }

  /** The first name is read, or it is too long. */
  lemma FirstName(p: seq<Name>, tail: seq<byte>)
    requires Plain(p) && p != []
    ensures GetCstring(EncodeAll(Strings(p)) + tail) ==
            if |p[0]| <= MAX_STRING then Got(p[0], EncodeAll(Strings(p[1..])) + tail) else Bad
  {
    var items := Strings(p);
    assert items[1..] == Strings(p[1..]);
    EncodeCons(items, tail);
    StringFront(p[0], EncodeAll(items[1..]) + tail);
  }

  lemma SendableCons(p: seq<Name>)
    requires p != []
    ensures Sendable(p) <==> |p[0]| <= MAX_STRING && Sendable(p[1..])
  {
    assert forall i :: 0 < i < |p| ==> p[i] == p[1..][i - 1];
  }

  /** What a KEXINIT with this proposal tells its reader. */
  function Offer(p: Proposal): Option<Parsed> {
    if Sendable(p) then Some(Parsed(p, false)) else None
  }

  /**
   * `kex_buf2prop` undoes `kex_prop2buf`, whatever cookie was written in between, unless a list is too long to read.
   */
  lemma KexinitRoundTrip(cookie: seq<byte>, p: Proposal)
    requires |cookie| == KEX_COOKIE_LEN && Plain(p)
    ensures ParseKexinit(Kexinit(cookie, p)) == Offer(p)
  {
    var end := Encode(Char(0)) + Encode(Int(0));
    assert Kexinit(cookie, p)[KEX_COOKIE_LEN..] == EncodeAll(Strings(p)) + end;
    NamesRoundTrip(p, end);
    CharFront(0, Encode(Int(0)));
    IntFront(0, []);
    assert Encode(Int(0)) + [] == Encode(Int(0));
  }

  // ----- kex_choose_conf -----

  datatype CipherInfo = CipherInfo(keyLen: nat, blockSize: nat)

  /** The algorithms compiled in, looked up by name. */
  datatype Suite = Suite(cipher: Name -> Option<CipherInfo>, mac: Name -> Option<nat>, comp: Name -> Option<nat>,
                         kex: Name -> Option<nat>, hostkey: Name -> Option<nat>)

  /** The choice for one direction of the connection. */
  datatype Algorithms = Algorithms(enc: Name, encInfo: CipherInfo, mac: Name, macKeyLen: nat, comp: Name, compType: nat)

  datatype Conf = Conf(modeOut: Algorithms, modeIn: Algorithms, kexType: nat, hostkeyType: nat, need: nat)

  const KEX_ALGS := 0
  const HOST_KEY_ALGS := 1
  const ENC_CTOS := 2
  const ENC_STOC := 3
  const MAC_CTOS := 4
  const MAC_STOC := 5
  const COMP_CTOS := 6
  const COMP_STOC := 7

  function Max(a: nat, b: nat): nat { if a < b then b else a }

  /** `choose_enc`, `choose_mac` and `choose_comp` for one mode; None where the source calls `fatal`. */
  function ChooseMode(suite: Suite, cprop: Proposal, sprop: Proposal, ctos: bool): Option<Algorithms> {
    var nenc := if ctos then ENC_CTOS else ENC_STOC;
    var nmac := if ctos then MAC_CTOS else MAC_STOC;
    var ncomp := if ctos then COMP_CTOS else COMP_STOC;
    var enc, mac, comp := MatchList(cprop[nenc], sprop[nenc]), MatchList(cprop[nmac], sprop[nmac]),
      MatchList(cprop[ncomp], sprop[ncomp]);
    LookUp(suite, enc, mac, comp)
  }

  /** The algorithms by the names that were found. */
  function LookUp(suite: Suite, enc: Option<Name>, mac: Option<Name>, comp: Option<Name>): Option<Algorithms> {
    if enc.None? || mac.None? || comp.None? then None
    else
      var e, m, c := suite.cipher(enc.value), suite.mac(mac.value), suite.comp(comp.value);
      if e.None? || m.None? || c.None? then None
      else Some(Algorithms(enc.value, e.value, mac.value, m.value, comp.value, c.value))
  }

  function Need(a: Algorithms): nat {
    Max(Max(a.encInfo.keyLen, a.encInfo.blockSize), a.macKeyLen)
  }

  /** `kex_choose_conf` run by one side on its own and the peer's proposal. */
  function ChooseConf(suite: Suite, server: bool, my: Proposal, peer: Proposal): Option<Conf> {
    var cprop, sprop := if server then peer else my, if server then my else peer;
    // mode 0 is MODE_IN and mode 1 is MODE_OUT; ctos holds for the client's output and the server's input
    var modeIn := ChooseMode(suite, cprop, sprop, server);
    var modeOut := ChooseMode(suite, cprop, sprop, !server);
    var kex, hostkey := MatchList(cprop[KEX_ALGS], sprop[KEX_ALGS]),
      MatchList(cprop[HOST_KEY_ALGS], sprop[HOST_KEY_ALGS]);
    if modeIn.None? || modeOut.None? || kex.None? || hostkey.None? then None
    else
      var k, h := suite.kex(kex.value), suite.hostkey(hostkey.value);
      if k.None? || h.None? then None
      else Some(Conf(modeOut.value, modeIn.value, k.value, h.value, Max(Need(modeIn.value), Need(modeOut.value))))
  }

  /** The other end's view of a configuration. */
  function Mirror(c: Conf): Conf {
    c.(modeOut := c.modeIn, modeIn := c.modeOut)
  }

  /** The two peers reach the same outcome, each sending with what the other receives with. */
  lemma PeersAgree(suite: Suite, cprop: Proposal, sprop: Proposal)
    ensures var c, s := ChooseConf(suite, false, cprop, sprop), ChooseConf(suite, true, sprop, cprop);
            && (c.Some? <==> s.Some?)
            && (c.Some? ==> s.value == Mirror(c.value))
  {
  }

  /** The name agreed on in a category: the first of the client's that is among the server's considered ones. */
  ghost predicate Agreed(cprop: Proposal, sprop: Proposal, i: nat, n: Name) {
    i < 10 && IsFirstCommon(Names(cprop[i]), if |Names(sprop[i])| <= 40 then Names(sprop[i])
                            else Names(sprop[i])[..40], n)
  }

  /** The choices for one direction, by category. */
  ghost predicate DirectionAgreed(suite: Suite, cprop: Proposal, sprop: Proposal, a: Algorithms, enc: nat, mac: nat,
                                  comp: nat) {
    && Agreed(cprop, sprop, enc, a.enc) && suite.cipher(a.enc) == Some(a.encInfo)
    && Agreed(cprop, sprop, mac, a.mac) && suite.mac(a.mac) == Some(a.macKeyLen)
    && Agreed(cprop, sprop, comp, a.comp) && suite.comp(a.comp) == Some(a.compType)
  }

  ghost predicate Sizes(a: Algorithms, need: nat) {
    a.encInfo.keyLen <= need && a.encInfo.blockSize <= need && a.macKeyLen <= need
  }

  predicate OneSize(a: Algorithms, need: nat) {
    need == a.encInfo.keyLen || need == a.encInfo.blockSize || need == a.macKeyLen
  }

  lemma MatchIsAgreed(cprop: Proposal, sprop: Proposal, i: nat)
    requires i < 10
    ensures MatchList(cprop[i], sprop[i]).Some? ==> Agreed(cprop, sprop, i, MatchList(cprop[i], sprop[i]).value)
  {
  }

  lemma DirectionIsAgreed(suite: Suite, cprop: Proposal, sprop: Proposal, ctos: bool)
    ensures var a := ChooseMode(suite, cprop, sprop, ctos);
            a.Some? ==>
              if ctos then DirectionAgreed(suite, cprop, sprop, a.value, ENC_CTOS, MAC_CTOS, COMP_CTOS)
              else DirectionAgreed(suite, cprop, sprop, a.value, ENC_STOC, MAC_STOC, COMP_STOC)
  {
    var enc, mac, comp := if ctos then 2 else 3, if ctos then 4 else 5, if ctos then 6 else 7;
    MatchIsAgreed(cprop, sprop, enc);
    MatchIsAgreed(cprop, sprop, mac);
    MatchIsAgreed(cprop, sprop, comp);
  }

  ghost predicate TypesAgreed(suite: Suite, cprop: Proposal, sprop: Proposal, kexType: nat, hostkeyType: nat) {
    && (exists n :: Agreed(cprop, sprop, 0, n) && suite.kex(n) == Some(kexType))
    && (exists n :: Agreed(cprop, sprop, 1, n) && suite.hostkey(n) == Some(hostkeyType))
  }

  lemma TypesAreAgreed(suite: Suite, cprop: Proposal, sprop: Proposal, k: Name, h: Name)
    requires MatchList(cprop[KEX_ALGS], sprop[KEX_ALGS]) == Some(k) && suite.kex(k).Some?
    requires MatchList(cprop[HOST_KEY_ALGS], sprop[HOST_KEY_ALGS]) == Some(h) && suite.hostkey(h).Some?
    ensures TypesAgreed(suite, cprop, sprop, suite.kex(k).value, suite.hostkey(h).value)
  {
    assert Agreed(cprop, sprop, KEX_ALGS, k) && Agreed(cprop, sprop, HOST_KEY_ALGS, h);
  }

  lemma NeedIsLargest(x: Algorithms, y: Algorithms)
    ensures var need := Max(Need(x), Need(y));
            Sizes(x, need) && Sizes(y, need) && (OneSize(x, need) || OneSize(y, need))
  {
  }

  /** A configuration in which every name is the first of the client's that the server also offers. */
  ghost predicate ConfAgreed(suite: Suite, cprop: Proposal, sprop: Proposal, ctos: Algorithms, stoc: Algorithms,
                             conf: Conf) {
    && DirectionAgreed(suite, cprop, sprop, ctos, 2, 4, 6)
    && DirectionAgreed(suite, cprop, sprop, stoc, 3, 5, 7)
    && TypesAgreed(suite, cprop, sprop, conf.kexType, conf.hostkeyType)
    && Sizes(ctos, conf.need) && Sizes(stoc, conf.need) && (OneSize(ctos, conf.need) || OneSize(stoc, conf.need))
  }

  lemma ConfIsAgreed(suite: Suite, cprop: Proposal, sprop: Proposal, ctos: Algorithms, stoc: Algorithms, conf: Conf,
                     k: Name, h: Name)
    requires ChooseMode(suite, cprop, sprop, true) == Some(ctos) && ChooseMode(suite, cprop, sprop, false) == Some(stoc)
    requires MatchList(cprop[KEX_ALGS], sprop[KEX_ALGS]) == Some(k) && suite.kex(k) == Some(conf.kexType)
    requires MatchList(cprop[HOST_KEY_ALGS], sprop[HOST_KEY_ALGS]) == Some(h)
             && suite.hostkey(h) == Some(conf.hostkeyType)
    requires conf.need == Max(Need(ctos), Need(stoc))
    ensures ConfAgreed(suite, cprop, sprop, ctos, stoc, conf)
  {
    DirectionIsAgreed(suite, cprop, sprop, true);
    DirectionIsAgreed(suite, cprop, sprop, false);
    TypesAreAgreed(suite, cprop, sprop, k, h);
    NeedIsLargest(ctos, stoc);
  }

  /**
   * Every choice is the first of the client's names that the server also offers, looked up in the suite; the key
   * material needed is the largest of the six sizes.
   */
  lemma ChoiceIsFirstCommon(suite: Suite, server: bool, my: Proposal, peer: Proposal)
    ensures var c := ChooseConf(suite, server, my, peer);
            c.Some? ==>
              if server then ConfAgreed(suite, peer, my, c.value.modeIn, c.value.modeOut, c.value)
              else ConfAgreed(suite, my, peer, c.value.modeOut, c.value.modeIn, c.value)
  {
    var c := ChooseConf(suite, server, my, peer);
    var cprop, sprop := if server then peer else my, if server then my else peer;
    if c.Some? {
      var k, h := MatchList(cprop[KEX_ALGS], sprop[KEX_ALGS]).value,
        MatchList(cprop[HOST_KEY_ALGS], sprop[HOST_KEY_ALGS]).value;
      var ctos := if server then c.value.modeIn else c.value.modeOut;
      var stoc := if server then c.value.modeOut else c.value.modeIn;
      ConfIsAgreed(suite, cprop, sprop, ctos, stoc, c.value, k, h);
    }
  }

  /** Whether the suite has an algorithm of the category by that name. */
  predicate Supports(suite: Suite, i: nat, n: Name) {
    if i == 0 then suite.kex(n).Some?
    else if i == 1 then suite.hostkey(n).Some?
    else if i == 2 || i == 3 then suite.cipher(n).Some?
    else if i == 4 || i == 5 then suite.mac(n).Some?
    else suite.comp(n).Some?
  }

  /** Two names cannot both be the first common one. */
  lemma FirstCommonIsUnique(mine: seq<Name>, theirs: seq<Name>, m: Name, n: Name)
    requires IsFirstCommon(mine, theirs, m) && IsFirstCommon(mine, theirs, n)
    ensures m == n
  {
    var i :| 0 <= i < |mine| && mine[i] == m && forall j :: 0 <= j < i ==> mine[j] !in theirs;
    var k :| 0 <= k < |mine| && mine[k] == n && forall j :: 0 <= j < k ==> mine[j] !in theirs;
    assert i == k;
  }

  ghost predicate Settled(suite: Suite, cprop: Proposal, sprop: Proposal, i: nat) {
    exists n :: Agreed(cprop, sprop, i, n) && Supports(suite, i, n)
  }

  /** The category works out: a name is found and supported. */
  predicate Works(suite: Suite, cprop: Proposal, sprop: Proposal, i: nat)
    requires i < 10
  {
    MatchList(cprop[i], sprop[i]).Some? && Supports(suite, i, MatchList(cprop[i], sprop[i]).value)
  }

  lemma SettledIff(suite: Suite, cprop: Proposal, sprop: Proposal, i: nat)
    requires i < 8
    ensures Settled(suite, cprop, sprop, i) <==> Works(suite, cprop, sprop, i)
  {
    var mine, theirs := Names(cprop[i]), Truncate(Names(sprop[i]), MAX_PROP);
    var r := MatchList(cprop[i], sprop[i]);
    if r.Some? {
      assert Agreed(cprop, sprop, i, r.value);
    }
    if Settled(suite, cprop, sprop, i) {
      var n :| Agreed(cprop, sprop, i, n) && Supports(suite, i, n);
      if r.Some? { FirstCommonIsUnique(mine, theirs, n, r.value); }
    }
  }

  lemma LookUpSucceedsIff(suite: Suite, enc: Option<Name>, mac: Option<Name>, comp: Option<Name>)
    ensures LookUp(suite, enc, mac, comp).Some? <==>
            && enc.Some? && suite.cipher(enc.value).Some? && mac.Some? && suite.mac(mac.value).Some?
            && comp.Some? && suite.comp(comp.value).Some?
  {
  }

  lemma OutwardSucceedsIff(suite: Suite, cprop: Proposal, sprop: Proposal)
    ensures ChooseMode(suite, cprop, sprop, true).Some? <==>
            && Works(suite, cprop, sprop, ENC_CTOS) && Works(suite, cprop, sprop, MAC_CTOS)
            && Works(suite, cprop, sprop, COMP_CTOS)
  {
    LookUpSucceedsIff(suite, MatchList(cprop[ENC_CTOS], sprop[ENC_CTOS]), MatchList(cprop[MAC_CTOS], sprop[MAC_CTOS]),
                      MatchList(cprop[COMP_CTOS], sprop[COMP_CTOS]));
  }

  lemma InwardSucceedsIff(suite: Suite, cprop: Proposal, sprop: Proposal)
    ensures ChooseMode(suite, cprop, sprop, false).Some? <==>
            && Works(suite, cprop, sprop, ENC_STOC) && Works(suite, cprop, sprop, MAC_STOC)
            && Works(suite, cprop, sprop, COMP_STOC)
  {
    LookUpSucceedsIff(suite, MatchList(cprop[ENC_STOC], sprop[ENC_STOC]), MatchList(cprop[MAC_STOC], sprop[MAC_STOC]),
                      MatchList(cprop[COMP_STOC], sprop[COMP_STOC]));
  }

  ghost predicate AllSettled(suite: Suite, cprop: Proposal, sprop: Proposal) {
    forall i :: 0 <= i < 8 ==> Settled(suite, cprop, sprop, i)
  }

  /** Which categories work out, as a table. */
  lemma Table(suite: Suite, cprop: Proposal, sprop: Proposal) returns (works: nat -> bool)
    ensures AllSettled(suite, cprop, sprop) <==> forall i: nat :: i < 8 ==> works(i)
    ensures ChooseMode(suite, cprop, sprop, true).Some? <==> works(ENC_CTOS) && works(MAC_CTOS) && works(COMP_CTOS)
    ensures ChooseMode(suite, cprop, sprop, false).Some? <==> works(ENC_STOC) && works(MAC_STOC) && works(COMP_STOC)
    ensures Works(suite, cprop, sprop, KEX_ALGS) <==> works(KEX_ALGS)
    ensures Works(suite, cprop, sprop, HOST_KEY_ALGS) <==> works(HOST_KEY_ALGS)
  {
    works := (i: nat) => i < 8 && Works(suite, cprop, sprop, i);
    forall i: nat | i < 8
      ensures works(i) <==> Settled(suite, cprop, sprop, i)
    {
      SettledIff(suite, cprop, sprop, i);
    }
    OutwardSucceedsIff(suite, cprop, sprop);
    InwardSucceedsIff(suite, cprop, sprop);
  }

  lemma EightCases(p: nat -> bool)
    ensures (forall i: nat :: i < 8 ==> p(i)) <==> p(0) && p(1) && p(2) && p(3) && p(4) && p(5) && p(6) && p(7)
  {
  }

  /** Negotiation succeeds if and only if all eight categories have a first common name that the suite supports. */
  lemma ChoiceSucceedsIff(suite: Suite, server: bool, my: Proposal, peer: Proposal)
    ensures ChooseConf(suite, server, my, peer).Some? <==>
            if server then AllSettled(suite, peer, my) else AllSettled(suite, my, peer)
  {
    var cprop, sprop := if server then peer else my, if server then my else peer;
    var works := Table(suite, cprop, sprop);
    EightCases(works);
  }

  /** Negotiation from the exchanged bytes: each side parses what was sent and what was received. */
  function Negotiate(suite: Suite, server: bool, my: seq<byte>, peer: seq<byte>): Option<Conf> {
    var m, p := ParseKexinit(my), ParseKexinit(peer);
    if m.None? || p.None? then None else ChooseConf(suite, server, m.value.prop, p.value.prop)
  }

  /** On each other's KEXINIT bytes, the two peers negotiate mirror images. */
  lemma BytesAgree(suite: Suite, client: seq<byte>, server: seq<byte>)
    ensures var c, s := Negotiate(suite, false, client, server), Negotiate(suite, true, server, client);
            && (c.Some? <==> s.Some?)
            && (c.Some? ==> s.value == Mirror(c.value))
  {
    var a, b := ParseKexinit(client), ParseKexinit(server);
    if a.Some? && b.Some? { PeersAgree(suite, a.value.prop, b.value.prop); }
  }
}

/** Key derivation: section 7.2 of RFC 4253. */
module KeyDerivation {
  import Arith
  import opened Bytes
  import opened Wire
  import opened Negotiation
  import opened Options

  /** A hash function with digests of `size` bytes. */
  datatype Digest = Digest(hash: seq<byte> -> seq<byte>, size: nat) {
    ghost predicate Valid() {
      size > 0 && forall s :: |hash(s)| == size
    }
  }

  /** Kn = HASH(K || H || K1 || ... || Kn-1) until `need` bytes are there. */
  ghost function Expand(d: Digest, kh: seq<byte>, have: seq<byte>, need: nat): (r: seq<byte>)
    requires d.Valid()
    ensures have <= r && |r| >= need && |r| >= |have|
    decreases need - |have|
  {
    if |have| >= need then have else Expand(d, kh, have + d.hash(kh + have), need)
  }

  /** The text hashed for the first block: K || H || letter || session_id. */
  function FirstInput(secret: nat, hash: seq<byte>, letter: byte, session: seq<byte>): seq<byte> {
    Encode(Mpint(secret)) + hash + [letter] + session
  }

  function Roundup(x: nat, y: nat): nat
    requires y > 0
  {
    ((x + (y - 1)) / y) * y
  }

  /** `derive_key`; None stands for the fatal error of `xmalloc`, which does not allocate zero bytes. */
  ghost function DeriveKey(d: Digest, letter: byte, need: nat, hash: seq<byte>, secret: nat, session: seq<byte>)
    : (r: Option<seq<byte>>)
    requires d.Valid()
    ensures r.None? <==> need == 0
  {
    RoundupZero(need, d.size);
    if Roundup(need, d.size) == 0 then None
    else Some(Expand(d, Encode(Mpint(secret)) + hash, d.hash(FirstInput(secret, hash, letter, session)), need))
  }

  lemma RoundupZero(x: nat, y: nat)
    requires y > 0
    ensures Roundup(x, y) == 0 <==> x == 0
  {
    var q := (x + (y - 1)) / y;
    Arith.DivDef(x + (y - 1), y);
    Arith.MulAtLeast(q, y);
  }

  /** A longer key begins with the shorter one. */
  lemma {:induction false} ExpandPrefix(d: Digest, kh: seq<byte>, have: seq<byte>, n: nat, m: nat)
    requires d.Valid() && n <= m
    ensures Expand(d, kh, have, n) <= Expand(d, kh, have, m)
    decreases m - |have|
  {
    if |have| < n {
      ExpandPrefix(d, kh, have + d.hash(kh + have), n, m);
    }
  }

  lemma SmallerNeedIsPrefix(d: Digest, letter: byte, n: nat, m: nat, hash: seq<byte>, secret: nat, session: seq<byte>)
    requires d.Valid() && n <= m
    ensures var short := DeriveKey(d, letter, n, hash, secret, session);
            var long := DeriveKey(d, letter, m, hash, secret, session);
            short.Some? ==> long.Some? && short.value <= long.value
  {
    ExpandPrefix(d, Encode(Mpint(secret)) + hash, d.hash(FirstInput(secret, hash, letter, session)), n, m);
  }

  lemma RoundupBetween(x: nat, y: nat, k: nat)
    requires y > 0 && (k - 1) * y < x <= k * y
    ensures Roundup(x, y) == k * y
  {
    var q := (x + (y - 1)) / y;
    Arith.DivDef(x + (y - 1), y);
    Arith.MulSub(q, k, y);
    Arith.MulSub(q, k - 1, y);
    Arith.MulAtLeast(q - k, y);
    Arith.MulAtLeast(q - (k - 1), y);
    assert (q - (k - 1)) * y > 0;
  }

  lemma {:induction false} ExpandLength(d: Digest, kh: seq<byte>, have: seq<byte>, need: nat, k: nat)
    requires d.Valid() && k > 0 && |have| == k * d.size && (k - 1) * d.size < need
    ensures |Expand(d, kh, have, need)| == Roundup(need, d.size)
    decreases need - |have|
  {
    if |have| < need {
      assert |have + d.hash(kh + have)| == (k + 1) * d.size;
      ExpandLength(d, kh, have + d.hash(kh + have), need, k + 1);
    } else {
      RoundupBetween(need, d.size, k);
    }
  }

  /** Whenever a key is returned, its blocks fill exactly the memory allocated for them. */
  lemma FillsAllocation(d: Digest, letter: byte, need: nat, hash: seq<byte>, secret: nat, session: seq<byte>)
    requires d.Valid()
    ensures var key := DeriveKey(d, letter, need, hash, secret, session);
            key.Some? ==> |key.value| == Roundup(need, d.size) >= need
  {
    if need > 0 {
      ExpandLength(d, Encode(Mpint(secret)) + hash, d.hash(FirstInput(secret, hash, letter, session)), need, 1);
    }
  }

  // ----- The keys as section 7.2 of RFC 4253 has them -----

  /** Block `k` of a key is the hash of K, H and the blocks before it. */
  ghost predicate ChainedAt(d: Digest, kh: seq<byte>, key: seq<byte>, k: nat) {
    k * d.size <= (k + 1) * d.size <= |key| ==> key[k * d.size..(k + 1) * d.size] == d.hash(kh + key[..k * d.size])
  }

  /** `n` blocks are the fewest that hold `need` bytes, and `key` has that many. */
  ghost predicate FewestBlocks(d: Digest, need: nat, key: seq<byte>, n: nat) {
    n > 0 && |key| == n * d.size && (n - 1) * d.size < need <= n * d.size
  }

  /** K1 = HASH(K || H || X || session_id), every further block chained to those before it, and no block to spare. */
  ghost predicate IsKey(d: Digest, letter: byte, need: nat, hash: seq<byte>, secret: nat, session: seq<byte>,
                        key: seq<byte>) {
    && d.size <= |key| && key[..d.size] == d.hash(Encode(Mpint(secret)) + hash + [letter] + session)
    && (forall k: nat :: k > 0 ==> ChainedAt(d, Encode(Mpint(secret)) + hash, key, k))
    && (exists n: nat :: FewestBlocks(d, need, key, n))
  }

  lemma {:induction false} ExpandChains(d: Digest, kh: seq<byte>, have: seq<byte>, need: nat, j: nat, k: nat)
    requires d.Valid() && |have| == j * d.size && j <= k
    ensures ChainedAt(d, kh, Expand(d, kh, have, need), k)
    decreases need - |have|
  {
    var next := have + d.hash(kh + have);
    var key := Expand(d, kh, have, need);
    Arith.MulSub(k, j, d.size);
    if |have| >= need {
      Arith.MulSub(k + 1, j, d.size);
      Arith.MulAtLeast(k + 1 - j, d.size);
    } else if k == j {
      assert next <= key;
      assert key[..k * d.size] == have && key[k * d.size..(k + 1) * d.size] == d.hash(kh + have);
    } else {
      assert |next| == (j + 1) * d.size;
      ExpandChains(d, kh, next, need, j + 1, k);
    }
  }

  lemma {:induction false} ExpandIsTight(d: Digest, kh: seq<byte>, have: seq<byte>, need: nat, k: nat)
    requires d.Valid() && k > 0 && |have| == k * d.size && (k - 1) * d.size < need
    ensures exists n: nat :: FewestBlocks(d, need, Expand(d, kh, have, need), n)
    decreases need - |have|
  {
    if |have| < need {
      assert |have + d.hash(kh + have)| == (k + 1) * d.size;
      ExpandIsTight(d, kh, have + d.hash(kh + have), need, k + 1);
    } else {
      assert FewestBlocks(d, need, Expand(d, kh, have, need), k);
    }
  }

  lemma DerivedIsKey(d: Digest, letter: byte, need: nat, hash: seq<byte>, secret: nat, session: seq<byte>)
    requires d.Valid() && need > 0
    ensures IsKey(d, letter, need, hash, secret, session, DeriveKey(d, letter, need, hash, secret, session).value)
  {
    var kh, first := Encode(Mpint(secret)) + hash, d.hash(FirstInput(secret, hash, letter, session));
    forall k: nat | k > 0
      ensures ChainedAt(d, kh, Expand(d, kh, first, need), k)
    {
      ExpandChains(d, kh, first, need, 1, k);
    }
    ExpandIsTight(d, kh, first, need, 1);
  }

  lemma FewestIsUnique(d: Digest, need: nat, a: seq<byte>, b: seq<byte>, m: nat, n: nat)
    requires d.Valid() && FewestBlocks(d, need, a, m) && FewestBlocks(d, need, b, n)
    ensures m == n
  {
    Arith.MulSub(m - 1, n, d.size);
    Arith.MulSub(n - 1, m, d.size);
    Arith.MulAtLeast(m - 1 - n + 1, d.size);
    Arith.MulAtLeast(n - 1 - m + 1, d.size);
  }

  lemma {:induction false} SameBlocks(d: Digest, kh: seq<byte>, a: seq<byte>, b: seq<byte>, n: nat)
    requires d.Valid() && n > 0 && |a| == |b| && n * d.size <= |a|
    requires d.size <= |a| && a[..d.size] == b[..d.size]
    requires forall k: nat :: k > 0 ==> ChainedAt(d, kh, a, k) && ChainedAt(d, kh, b, k)
    ensures a[..n * d.size] == b[..n * d.size]
  {
    if n > 1 {
      var k := n - 1;
      assert k * d.size <= (k + 1) * d.size == n * d.size;
      SameBlocks(d, kh, a, b, k);
      assert ChainedAt(d, kh, a, k) && ChainedAt(d, kh, b, k);
      Rejoin(a, k * d.size, n * d.size);
      Rejoin(b, k * d.size, n * d.size);
    }
  }

  lemma Rejoin(s: seq<byte>, i: nat, j: nat)
    requires i <= j <= |s|
    ensures s[..j] == s[..i] + s[i..j]
  {
  }

  lemma KeyIsUnique(d: Digest, letter: byte, need: nat, hash: seq<byte>, secret: nat, session: seq<byte>,
                    a: seq<byte>, b: seq<byte>)
    requires d.Valid() && IsKey(d, letter, need, hash, secret, session, a)
    requires IsKey(d, letter, need, hash, secret, session, b)
    ensures a == b
  {
    var m: nat :| FewestBlocks(d, need, a, m);
    var n: nat :| FewestBlocks(d, need, b, n);
    FewestIsUnique(d, need, a, b, m, n);
    SameBlocks(d, Encode(Mpint(secret)) + hash, a, b, n);
    assert a[..n * d.size] == a && b[..n * d.size] == b;
  }

  /** `derive_key` returns the key of the standard and nothing else, and dies exactly if no byte is needed. */
  lemma DerivedIff(d: Digest, letter: byte, need: nat, hash: seq<byte>, secret: nat, session: seq<byte>, key: seq<byte>)
    requires d.Valid()
    ensures DeriveKey(d, letter, need, hash, secret, session) == Some(key) <==>
            need > 0 && IsKey(d, letter, need, hash, secret, session, key)
  {
    if need > 0 {
      DerivedIsKey(d, letter, need, hash, secret, session);
      var k := DeriveKey(d, letter, need, hash, secret, session).value;
      if IsKey(d, letter, need, hash, secret, session, key) {
        KeyIsUnique(d, letter, need, hash, secret, session, key, k);
      }
    }
  }

  /** The text hashed for a first block determines its letter and session identifier. */
  lemma FirstBlockInjective(secret: nat, hash: seq<byte>, x: byte, y: byte, s: seq<byte>, t: seq<byte>)
    requires Encode(Mpint(secret)) + hash + [x] + s == Encode(Mpint(secret)) + hash + [y] + t
    ensures x == y && s == t
  {
    var kh := Encode(Mpint(secret)) + hash;
    var a, b := kh + [x] + s, kh + [y] + t;
    assert a[|kh|] == x && b[|kh|] == y;
    assert a[|kh| + 1..] == s && b[|kh| + 1..] == t;
  }

  ghost predicate Collides(h: seq<byte> -> seq<byte>, a: seq<byte>, b: seq<byte>) {
    a != b && h(a) == h(b)
  }

  /**
   * Two keys of one exchange under different letters or session identifiers are equal only if the hash collides on
   * their first blocks.
   */
  lemma KeysAreApart(d: Digest, need: nat, hash: seq<byte>, secret: nat, x: byte, s: seq<byte>, y: byte, t: seq<byte>)
    requires d.Valid() && need > 0 && (x != y || s != t)
    ensures DeriveKey(d, x, need, hash, secret, s) == DeriveKey(d, y, need, hash, secret, t) ==>
              Collides(d.hash, Encode(Mpint(secret)) + hash + [x] + s, Encode(Mpint(secret)) + hash + [y] + t)
  {
    var a, b := Encode(Mpint(secret)) + hash + [x] + s, Encode(Mpint(secret)) + hash + [y] + t;
    DerivedIsKey(d, x, need, hash, secret, s);
    DerivedIsKey(d, y, need, hash, secret, t);
    if a == b { FirstBlockInjective(secret, hash, x, y, s, t); }
  }

  /** `derive_key` with its digest buffer, for every need. */
  method ComputeKey(d: Digest, letter: byte, need: nat, hash: seq<byte>, secret: nat, session: seq<byte>)
    returns (r: Option<array<byte>>)
    requires d.Valid()
    ensures r.None? <==> need == 0
    ensures r.Some? ==> fresh(r.value) && DeriveKey(d, letter, need, hash, secret, session) == Some(r.value[..])
    ensures r.Some? ==> IsKey(d, letter, need, hash, secret, session, r.value[..])
  {
    RoundupZero(need, d.size);
    var size := Roundup(need, d.size);
    if size == 0 {
      return None;
    }
    FillsAllocation(d, letter, need, hash, secret, session);
    var digest := new byte[size](_ => 0);
    FillDigest(digest, d, letter, need, hash, secret, session);
    DerivedIsKey(d, letter, need, hash, secret, session);
    r := Some(digest);
  }

  /** The loop over the blocks. */
  method FillDigest(digest: array<byte>, d: Digest, letter: byte, need: nat, hash: seq<byte>, secret: nat,
                    session: seq<byte>)
    requires d.Valid() && need > 0
    requires digest.Length == |DeriveKey(d, letter, need, hash, secret, session).value|
    modifies digest
    ensures digest[..] == DeriveKey(d, letter, need, hash, secret, session).value
  {
    var b := Encode(Mpint(secret));
    var block := d.hash(FirstInput(secret, hash, letter, session));
    ghost var key := DeriveKey(d, letter, need, hash, secret, session).value;
    assert block <= key;
    Store(digest, 0, block);
    var have := d.size;
    while need > have
      invariant 0 < have <= digest.Length
      invariant Expand(d, b + hash, digest[..have], need) == key
      decreases need - have
    {
      block := d.hash(b + hash + digest[..have]);
      ghost var filled := digest[..have];
      assert filled + block <= key;
      Store(digest, have, block);
      assert digest[..have + d.size] == filled + block;
      have := have + d.size;
    }
    assert digest[..have] == key;
  }

  /** Copies a block into the digest buffer. */
  method Store(a: array<byte>, at: nat, block: seq<byte>)
    requires at + |block| <= a.Length
    modifies a
    ensures a[at..at + |block|] == block
    ensures forall i :: 0 <= i < at ==> a[i] == old(a[i])
  {
    forall i | 0 <= i < |block| { a[at + i] := block[i]; }
  }

  // ----- kex_derive_keys -----

  /** The keys of one direction. */
  datatype DirectionKeys = DirectionKeys(alg: Algorithms, iv: seq<byte>, key: seq<byte>, mac: seq<byte>)

  datatype ModeKeys = ModeKeys(modeOut: DirectionKeys, modeIn: DirectionKeys)

  const LETTER_A: byte := 0x41

  /** `kex_derive_keys`: six keys 'A' to 'F', of which each mode gets the three of its direction; None if it dies. */
  ghost function DeriveKeys(d: Digest, server: bool, conf: Conf, hash: seq<byte>, secret: nat, session: seq<byte>)
    : (r: Option<ModeKeys>)
    requires d.Valid()
    ensures r.None? <==> conf.need == 0
  {
    if conf.need == 0 then None
    else
      var ctos := if server then conf.modeIn else conf.modeOut;
      var stoc := if server then conf.modeOut else conf.modeIn;
      var first := ThreeKeys(d, LETTER_A, ctos, conf.need, hash, secret, session);
      var second := ThreeKeys(d, LETTER_A + 1, stoc, conf.need, hash, secret, session);
      Some(if server then ModeKeys(second, first) else ModeKeys(first, second))
  }

  /** The keys of one direction: every second letter from `letter` on. */
  ghost function ThreeKeys(d: Digest, letter: byte, alg: Algorithms, need: nat, hash: seq<byte>, secret: nat,
                           session: seq<byte>)
    : DirectionKeys
    requires d.Valid() && need > 0 && letter + 4 < 0x100
  {
    DirectionKeys(alg, DeriveKey(d, letter, need, hash, secret, session).value,
                  DeriveKey(d, letter + 2, need, hash, secret, session).value,
                  DeriveKey(d, letter + 4, need, hash, secret, session).value)
  }

  /** The letters of section 7.2 of RFC 4253: A, C and E from client to server, B, D and F the other way. */
  ghost predicate Lettered(d: Digest, need: nat, hash: seq<byte>, secret: nat, session: seq<byte>,
                           ctos: DirectionKeys, stoc: DirectionKeys)
  {
    && IsKey(d, 'A' as int, need, hash, secret, session, ctos.iv)
    && IsKey(d, 'B' as int, need, hash, secret, session, stoc.iv)
    && IsKey(d, 'C' as int, need, hash, secret, session, ctos.key)
    && IsKey(d, 'D' as int, need, hash, secret, session, stoc.key)
    && IsKey(d, 'E' as int, need, hash, secret, session, ctos.mac)
    && IsKey(d, 'F' as int, need, hash, secret, session, stoc.mac)
  }

  lemma KeysByLetter(d: Digest, server: bool, conf: Conf, hash: seq<byte>, secret: nat, session: seq<byte>)
    requires d.Valid() && conf.need > 0
    ensures var keys := DeriveKeys(d, server, conf, hash, secret, session).value;
            if server then Lettered(d, conf.need, hash, secret, session, keys.modeIn, keys.modeOut)
            else Lettered(d, conf.need, hash, secret, session, keys.modeOut, keys.modeIn)
  {
    DerivedIsKey(d, 'A' as int, conf.need, hash, secret, session);
    DerivedIsKey(d, 'B' as int, conf.need, hash, secret, session);
    DerivedIsKey(d, 'C' as int, conf.need, hash, secret, session);
    DerivedIsKey(d, 'D' as int, conf.need, hash, secret, session);
    DerivedIsKey(d, 'E' as int, conf.need, hash, secret, session);
    DerivedIsKey(d, 'F' as int, conf.need, hash, secret, session);
  }

  /** Each direction has the same keys on both sides, or both sides die. */
  lemma KeysAgree(d: Digest, conf: Conf, hash: seq<byte>, secret: nat, session: seq<byte>)
    requires d.Valid()
    ensures var c := DeriveKeys(d, false, conf, hash, secret, session);
            var s := DeriveKeys(d, true, Mirror(conf), hash, secret, session);
            && (c.Some? <==> s.Some?)
            && (c.Some? ==> c.value.modeOut == s.value.modeIn && c.value.modeIn == s.value.modeOut)
  {
  }
}
