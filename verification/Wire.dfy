/** Big-endian integers, strings and multiple-precision integers of section 5 of RFC 4251, as bytes. */
module Wire {
  import opened Arith
  import opened Bytes
  import opened Options

  const MAX_STRING := 256 * 1024
  const MAX_BIGNUM := 8 * 1024

  function Pow256(w: nat): (r: nat)
    ensures r >= 1
  {
    if w == 0 then 1 else 0x100 * Pow256(w - 1)
  }

  /** The value of bytes, most significant first. */
  function Big(s: seq<byte>): (r: nat)
    ensures r < Pow256(|s|)
  {
    if s == [] then 0 else 0x100 * Big(s[..|s| - 1]) + s[|s| - 1]
  }

  /** `v` in exactly `w` bytes, most significant first; what does not fit is cut off. */
  function Fixed(v: nat, w: nat): (r: seq<byte>)
    ensures |r| == w
  {
    if w == 0 then [] else Fixed(v / 0x100, w - 1) + [v % 0x100]
  }

  /** `BN_bn2bin`: `v` in as few bytes as possible. */
  function Minimal(v: nat): (r: seq<byte>)
    ensures v == 0 <==> r == []
  {
    if v == 0 then [] else Minimal(v / 0x100) + [v % 0x100]
  }

  /** `BN_num_bits` */
  function NumBits(v: nat): (r: nat)
    ensures r == 0 <==> v == 0
  {
    if v == 0 then 0 else 1 + NumBits(v / 2)
  }

  lemma {:induction false} BigFixed(v: nat, w: nat)
    ensures Big(Fixed(v, w)) == v % Pow256(w)
  {
    if w > 0 {
      BigFixed(v / 0x100, w - 1);
      var f := Fixed(v, w);
      assert f[..|f| - 1] == Fixed(v / 0x100, w - 1);
      Mod256(v, Pow256(w - 1));
    }
  }

  lemma Mod256(v: nat, m: nat)
    requires m > 0
    ensures v % (0x100 * m) == 0x100 * ((v / 0x100) % m) + v % 0x100
  {
    var q, r := (v / 0x100) / m, (v / 0x100) % m;
    DivDef(v / 0x100, m);
    assert q * (0x100 * m) == 0x100 * (q * m);
    RemainderIs(v, 0x100 * m, q, 0x100 * r + v % 0x100);
  }

  lemma {:induction false} FixedBig(s: seq<byte>)
    ensures Fixed(Big(s), |s|) == s
  {
    if s != [] {
      FixedBig(s[..|s| - 1]);
      assert s == s[..|s| - 1] + [s[|s| - 1]];
    }
  }

  lemma {:induction false} BigMinimal(v: nat)
    ensures Big(Minimal(v)) == v
  {
    if v > 0 {
      BigMinimal(v / 0x100);
      var m := Minimal(v);
      assert m[..|m| - 1] == Minimal(v / 0x100);
    }
  }

  lemma {:induction false} MinimalHead(v: nat)
    requires v > 0
    ensures Minimal(v)[0] != 0
  {
    if v >= 0x100 {
      MinimalHead(v / 0x100);
    }
  }

  /** Bytes with a zero in front have the same value. */
  lemma {:induction false} BigLeadingZero(s: seq<byte>)
    ensures Big([0] + s) == Big(s)
  {
    var z := [0] + s;
    if s == [] {
      assert z[..|z| - 1] == [];
    } else {
      BigLeadingZero(s[..|s| - 1]);
      assert z[..|z| - 1] == [0] + s[..|s| - 1];
    }
  }

  /** No byte string of the same value is shorter. */
  lemma {:induction false} MinimalIsShortest(s: seq<byte>)
    ensures |Minimal(Big(s))| <= |s|
  {
    if s != [] {
      var t := s[..|s| - 1];
      MinimalIsShortest(t);
      assert Big(s) / 0x100 == Big(t);
    }
  }

  lemma {:induction false} MinimalBound(v: nat, w: nat)
    requires v < Pow256(w)
    ensures |Minimal(v)| <= w
    decreases w
  {
    if v > 0 {
      MinimalBound(v / 0x100, w - 1);
    }
  }

  lemma NumBitsByte(v: nat)
    ensures v >= 0x100 ==> NumBits(v) == 8 + NumBits(v / 0x100)
    ensures 0 < v < 0x100 ==> 1 <= NumBits(v) <= 8
  {
    var a := v / 2;
    var b := a / 2;
    var c := b / 2;
    var d := c / 2;
    assert NumBits(v) == if v == 0 then 0 else 1 + NumBits(a);
    NumBitsNibble(v);
    NumBitsNibble(d);
    assert d / 2 / 2 / 2 / 2 == v / 0x100;
  }

  lemma NumBitsNibble(v: nat)
    ensures v >= 16 ==> NumBits(v) == 4 + NumBits(v / 2 / 2 / 2 / 2)
    ensures 0 < v < 16 ==> 1 <= NumBits(v) <= 4
  {
    var a := v / 2;
    var b := a / 2;
    var c := b / 2;
    assert NumBits(a) == if a == 0 then 0 else 1 + NumBits(b);
    assert NumBits(b) == if b == 0 then 0 else 1 + NumBits(c);
  }

  /** The number of bits is the least exponent of two above the value. */
  lemma {:induction false} NumBitsIff(v: nat, k: nat)
    ensures NumBits(v) <= k <==> v < Pow2(k)
  {
    if v > 0 && k > 0 { NumBitsIff(v / 2, k - 1); }
  }

  lemma {:induction false} MinimalLength(v: nat)
    ensures |Minimal(v)| == (NumBits(v) + 7) / 8
  {
    if v > 0 {
      NumBitsByte(v);
      MinimalLength(v / 0x100);
    }
  }

  // ----- The wire types -----

  datatype Got<+T> = Bad | Got(value: T, rest: seq<byte>)

  datatype Kind = KChar | KInt | KInt64 | KString | KMpint | KBignum1

  datatype Item =
    | Char(c: byte)
    | Int(v: uint32)
    | Int64(w: nat)
    | String(s: seq<byte>)
    | Mpint(n: nat)
    | Bignum1(n: nat)
  {
    function Kind(): Kind {
      match this
      case Char(_) => KChar
      case Int(_) => KInt
      case Int64(_) => KInt64
      case String(_) => KString
      case Mpint(_) => KMpint
      case Bignum1(_) => KBignum1
    }

    /** What the machine's length fields can express. */
    predicate Expressible() {
      match this
      case Int64(w) => w < U32 * U32
      case String(s) => |s| < U32
      case Mpint(n) => |MpintBody(n)| < U32
      case _ => true
    }

    /** What is written without an error and without cutting off the count of bits. */
    predicate Writable() {
      Expressible() && (Bignum1? ==> 0 < n && NumBits(n) < 0x1_0000)
    }

    /** What the readers return. */
    predicate Readable() {
      match this
      case Int64(w) => w < U32 * U32
      case String(s) => |s| <= 256 * 1024
      case Mpint(n) => |MpintBody(n)| <= 8 * 1024
      case Bignum1(n) => 0 < n && NumBits(n) < 0x1_0000
      case _ => true
    }
  }

  /** The bytes of a non-negative mpint: minimal, with a zero byte where the sign bit would be set. */
  function MpintBody(n: nat): seq<byte> {
    var m := Minimal(n);
    if m != [] && m[0] >= 0x80 then [0] + m else m
  }

  function StringBytes(s: seq<byte>): seq<byte> {
    Fixed(|s|, 4) + s
  }

  function Encode(i: Item): seq<byte> {
    match i
    case Char(c) => [c]
    case Int(v) => Fixed(v, 4)
    case Int64(w) => Fixed(w, 8)
    case String(s) => StringBytes(s)
    case Mpint(n) => StringBytes(MpintBody(n))
    case Bignum1(n) => Fixed(NumBits(n), 2) + Minimal(n)
  }

  /**
   * What the writers append; for the SSH1 form of zero the source dies, since `xmalloc` does not allocate zero bytes.
   */
  function Write(i: Item): Option<seq<byte>> {
    if i == Bignum1(0) then None else Some(Encode(i))
  }

  function Take(s: seq<byte>, n: nat): Got<seq<byte>> {
    if |s| < n then Bad else Got(s[..n], s[n..])
  }

  function GetNumber(s: seq<byte>, w: nat): Got<nat> {
    match Take(s, w)
    case Bad => Bad
    case Got(b, rest) => Got(Big(b), rest)
  }

  function GetString(s: seq<byte>): Got<seq<byte>> {
    match GetNumber(s, 4)
    case Bad => Bad
    case Got(len, rest) => if len > MAX_STRING then Bad else Take(rest, len)
  }

  function GetMpint(s: seq<byte>): Got<nat> {
    match GetString(s)
    case Bad => Bad
    case Got(b, rest) =>
      if (b != [] && b[0] >= 0x80) || |b| > MAX_BIGNUM then Bad else Got(Big(b), rest)
  }

  function GetBignum1(s: seq<byte>): Got<nat> {
    match GetNumber(s, 2)
    case Bad => Bad
    case Got(bits, rest) =>
      var bytes := (bits + 7) / 8;
      if bytes > MAX_BIGNUM then Bad else GetNumber(rest, bytes)
  }

  function Decode(k: Kind, s: seq<byte>): Got<Item> {
    match k
    case KChar => if s == [] then Bad else Got(Char(s[0]), s[1..])
    case KInt =>
      (match GetNumber(s, 4)
       case Bad => Bad
       case Got(v, rest) => Got(Int(v % U32), rest))
    case KInt64 =>
      (match GetNumber(s, 8)
       case Bad => Bad
       case Got(v, rest) => Got(Int64(v), rest))
    case KString =>
      (match GetString(s)
       case Bad => Bad
       case Got(v, rest) => Got(String(v), rest))
    case KMpint =>
      (match GetMpint(s)
       case Bad => Bad
       case Got(v, rest) => Got(Mpint(v), rest))
    case KBignum1 =>
      (match GetBignum1(s)
       case Bad => Bad
       case Got(v, rest) => Got(Bignum1(v), rest))
  }

  lemma Assoc(a: seq<byte>, b: seq<byte>, c: seq<byte>)
    ensures a + b + c == a + (b + c)
  {
  }

  lemma TakeFront(a: seq<byte>, tail: seq<byte>)
    ensures Take(a + tail, |a|) == Got(a, tail)
  {
    assert (a + tail)[..|a|] == a && (a + tail)[|a|..] == tail;
  }

  lemma Widths()
    ensures Pow256(2) == 0x1_0000 && Pow256(4) == U32 && Pow256(8) == U32 * U32
  {
    assert Pow256(4) == U32;
    assert Pow256(6) == 0x1_0000 * U32;
  }

  lemma NumberFront(v: nat, w: nat, tail: seq<byte>)
    ensures GetNumber(Fixed(v, w) + tail, w) == Got(v % Pow256(w), tail)
  {
    TakeFront(Fixed(v, w), tail);
    BigFixed(v, w);
  }

  lemma StringFront(s: seq<byte>, tail: seq<byte>)
    requires |s| < U32
    ensures GetString(StringBytes(s) + tail) == if |s| <= MAX_STRING then Got(s, tail) else Bad
  {
    Widths();
    Assoc(Fixed(|s|, 4), s, tail);
    NumberFront(|s|, 4, s + tail);
    TakeFront(s, tail);
  }

  lemma BigMpintBody(n: nat)
    ensures Big(MpintBody(n)) == n
    ensures MpintBody(n) != [] ==> MpintBody(n)[0] < 0x80
  {
    BigMinimal(n);
    BigLeadingZero(Minimal(n));
  }

  lemma MpintFront(n: nat, tail: seq<byte>)
    requires |MpintBody(n)| < U32
    ensures GetMpint(Encode(Mpint(n)) + tail) == if |MpintBody(n)| <= MAX_BIGNUM then Got(n, tail) else Bad
  {
    StringFront(MpintBody(n), tail);
    BigMpintBody(n);
  }

  /** The 16-bit count says how many bytes are read. */
  lemma CountFront(bits: nat, t: seq<byte>)
    ensures GetBignum1(Fixed(bits, 2) + t) == GetNumber(t, (bits % 0x1_0000 + 7) / 8)
  {
    Widths();
    NumberFront(bits, 2, t);
  }

  lemma CountBytes(bits: nat)
    ensures bits < 0x1_0000 ==> (bits % 0x1_0000 + 7) / 8 == (bits + 7) / 8
    ensures bits >= 0x1_0000 ==> (bits % 0x1_0000 + 7) / 8 < (bits + 7) / 8
  {
  }

  lemma TakeLess(a: seq<byte>, tail: seq<byte>, n: nat)
    requires n < |a|
    ensures GetNumber(a + tail, n) != Got(Big(a), tail)
  {
    assert |(a + tail)[n..]| > |tail|;
  }

  lemma CountedFront(bits: nat, m: seq<byte>, tail: seq<byte>)
    requires |m| == (bits + 7) / 8
    ensures GetBignum1(Fixed(bits, 2) + m + tail) == Got(Big(m), tail) <==> bits < 0x1_0000
  {
    var g := GetBignum1(Fixed(bits, 2) + m + tail);
    var bytes := (bits % 0x1_0000 + 7) / 8;
    assert g == GetNumber(m + tail, bytes) by {
      Assoc(Fixed(bits, 2), m, tail);
      CountFront(bits, m + tail);
    }
    CountBytes(bits);
    if bytes < |m| { TakeLess(m, tail, bytes); } else { TakeFront(m, tail); }
  }

  lemma Bignum1Front(n: nat, tail: seq<byte>)
    ensures GetBignum1(Encode(Bignum1(n)) + tail) == Got(n, tail) <==> NumBits(n) < 0x1_0000
  {
    var bits, m := NumBits(n), Minimal(n);
    MinimalLength(n);
    BigMinimal(n);
    CountedFront(bits, m, tail);
  }

  /** An SSH1 number is written and reads back if and only if it is positive and its bits can be counted. */
  lemma Bignum1RoundTrip(n: nat, tail: seq<byte>)
    ensures var w := Write(Bignum1(n));
            w.Some? && GetBignum1(w.value + tail) == Got(n, tail) <==> 0 < n && NumBits(n) < 0x1_0000
  {
    Bignum1Front(n, tail);
  }

  /** The reader knows an SSH1 form of zero that the writer never produces. */
  lemma ZeroIsReadButNotWritten(tail: seq<byte>)
    ensures Write(Bignum1(0)) == None && GetBignum1([0, 0] + tail) == Got(0, tail)
  {
    Bignum1Front(0, tail);
    assert Fixed(0, 1) == [0] && Fixed(0, 2) == [0] + [0] && Encode(Bignum1(0)) == [0, 0] + [];
    assert [0, 0] + [] == [0, 0];
  }

  lemma CharFront(c: byte, tail: seq<byte>)
    ensures Decode(KChar, [c] + tail) == Got(Char(c), tail)
  {
    assert ([c] + tail)[1..] == tail;
  }

  lemma IntFront(v: uint32, tail: seq<byte>)
    ensures Decode(KInt, Encode(Int(v)) + tail) == Got(Int(v), tail)
  {
    Widths();
    NumberFront(v, 4, tail);
  }

  lemma Int64Front(w: nat, tail: seq<byte>)
    requires w < U32 * U32
    ensures Decode(KInt64, Encode(Int64(w)) + tail) == Got(Int64(w), tail)
  {
    Widths();
    NumberFront(w, 8, tail);
  }

  /** A value is written and reads back, with the bytes behind it untouched, exactly when the limits allow it. */
  lemma ItemRoundTrip(i: Item, tail: seq<byte>)
    requires i.Expressible()
    ensures var w := Write(i); w.Some? && Decode(i.Kind(), w.value + tail) == Got(i, tail) <==> i.Readable()
    ensures !i.Readable() && !i.Bignum1? ==> Decode(i.Kind(), Encode(i) + tail) == Bad
  {
    match i
    case Char(c) => CharFront(c, tail);
    case Int(v) => IntFront(v, tail);
    case Int64(w) => Int64Front(w, tail);
    case String(s) => StringFront(s, tail);
    case Mpint(n) => MpintFront(n, tail);
    case Bignum1(n) => Bignum1RoundTrip(n, tail);
  }

  // ----- The bytes themselves -----

  /** The value of bytes in two parts: the front counts for more. */
  lemma {:induction false} BigConcat(a: seq<byte>, b: seq<byte>)
    ensures Big(a + b) == Big(a) * Pow256(|b|) + Big(b)
    decreases |b|
  {
    if b == [] {
      assert a + b == a;
    } else {
      var front := b[..|b| - 1];
      BigConcat(a, front);
      assert (a + b)[..|a + b| - 1] == a + front && (a + b)[|a + b| - 1] == b[|b| - 1];
      Shifted(Big(a), Pow256(|front|), Big(front), b[|b| - 1]);
    }
  }

  lemma Shifted(x: nat, m: nat, y: nat, last: nat)
    ensures 0x100 * (x * m + y) + last == x * (0x100 * m) + (0x100 * y + last)
  {
  }

  /** Bytes of the right value are the fixed-width form of any number with that remainder. */
  lemma FixedIs(s: seq<byte>, v: nat)
    requires Big(s) == v % Pow256(|s|)
    ensures s == Fixed(v, |s|)
  {
    BigFixed(v, |s|);
    FixedBig(s);
    FixedBig(Fixed(v, |s|));
  }

  /** A 32-bit integer, most significant byte first. */
  lemma IntBytes(v: uint32)
    ensures Encode(Int(v)) == [v / 0x100_0000, v / 0x1_0000 % 0x100, v / 0x100 % 0x100, v % 0x100]
  {
    assert Fixed(v / 0x100_0000, 1) == [v / 0x100_0000] by { assert v / 0x100_0000 < 0x100; }
    assert Fixed(v / 0x1_0000, 2) == [v / 0x100_0000, v / 0x1_0000 % 0x100];
    assert Fixed(v / 0x100, 3) == [v / 0x100_0000, v / 0x1_0000 % 0x100, v / 0x100 % 0x100];
  }

  /** A string is its length as a 32-bit integer and its bytes. */
  lemma StringIsCounted(s: seq<byte>)
    requires |s| < U32
    ensures Encode(String(s)) == Encode(Int(|s|)) + s
  {
  }

  /** A multiple-precision integer is a string whose value it is, with a clear sign bit and nothing to spare. */
  lemma MpintIsString(n: nat)
    ensures exists body: seq<byte> :: Encode(Mpint(n)) == Encode(String(body)) && Big(body) == n
              && (body != [] ==> body[0] < 0x80)
              && (forall s :: Big(s) == n && (s != [] ==> s[0] < 0x80) ==> |body| <= |s|)
  {
    BigMpintBody(n);
    forall s | Big(s) == n && (s != [] ==> s[0] < 0x80)
      ensures |MpintBody(n)| <= |s|
    {
      MpintIsMinimal(n, s);
    }
    assert Encode(Mpint(n)) == Encode(String(MpintBody(n)));
  }

  /** The SSH1 form: the count of bits in two bytes, then as few bytes as hold them, with the number as their value. */
  lemma Bignum1Bytes(n: nat)
    requires NumBits(n) < 0x1_0000
    ensures exists body: seq<byte> :: Encode(Bignum1(n)) == [NumBits(n) / 0x100, NumBits(n) % 0x100] + body
              && |body| == (NumBits(n) + 7) / 8 && Big(body) == n
  {
    var bits := NumBits(n);
    assert Fixed(bits / 0x100, 1) == [bits / 0x100];
    assert Fixed(bits, 2) == [bits / 0x100, bits % 0x100];
    MinimalLength(n);
    BigMinimal(n);
    assert Encode(Bignum1(n)) == [bits / 0x100, bits % 0x100] + Minimal(n);
  }

  function EncodeAll(items: seq<Item>): seq<byte> {
    if items == [] then [] else Encode(items[0]) + EncodeAll(items[1..])
  }

  function Kinds(items: seq<Item>): (k: seq<Kind>)
    ensures |k| == |items|
  {
    if items == [] then [] else [items[0].Kind()] + Kinds(items[1..])
  }

  function DecodeAll(kinds: seq<Kind>, s: seq<byte>): Got<seq<Item>> {
    if kinds == [] then Got([], s)
    else
      match Decode(kinds[0], s)
      case Bad => Bad
      case Got(i, rest) =>
        match DecodeAll(kinds[1..], rest)
        case Bad => Bad
        case Got(more, rest') => Got([i] + more, rest')
  }

  /** Any list of storable values, written and then read in order, comes back and leaves the tail untouched. */
  lemma {:induction false} ListRoundTrip(items: seq<Item>, tail: seq<byte>)
    requires forall k :: 0 <= k < |items| ==> items[k].Writable() && items[k].Readable()
    ensures DecodeAll(Kinds(items), EncodeAll(items) + tail) == Got(items, tail)
  {
    if items != [] {
      EncodeCons(items, tail);
      ItemRoundTrip(items[0], EncodeAll(items[1..]) + tail);
      ListRoundTrip(items[1..], tail);
      assert [items[0]] + items[1..] == items;
    }
  }

  lemma StringLength(a: seq<byte>, x: seq<byte>)
    requires |a| < U32
    ensures GetNumber(StringBytes(a) + x, 4) == Got(|a|, a + x)
  {
    Widths();
    Assoc(Fixed(|a|, 4), a, x);
    NumberFront(|a|, 4, a + x);
  }

  /** Equal encodings of a string hold the same string, whatever follows. */
  lemma StringPrefixFree(a: seq<byte>, b: seq<byte>, x: seq<byte>, y: seq<byte>)
    requires |a| < U32 && |b| < U32 && StringBytes(a) + x == StringBytes(b) + y
    ensures a == b && x == y
  {
    StringLength(a, x);
    StringLength(b, y);
    TakeFront(a, x);
    TakeFront(b, y);
  }

  /** No encoding of a value is a proper prefix of another of the same kind, even beyond the readers' limits. */
  lemma ItemPrefixFree(a: Item, b: Item, x: seq<byte>, y: seq<byte>)
    requires a.Kind() == b.Kind() && a.Writable() && b.Writable()
    requires Encode(a) + x == Encode(b) + y
    ensures a == b && x == y
  {
    match a.Kind()
    case KString => StringPrefixFree(a.s, b.s, x, y);
    case KMpint =>
      StringPrefixFree(MpintBody(a.n), MpintBody(b.n), x, y);
      BigMpintBody(a.n);
      BigMpintBody(b.n);
    case _ =>
      ItemRoundTrip(a, x);
      ItemRoundTrip(b, y);
  }

  lemma EncodeCons(items: seq<Item>, x: seq<byte>)
    requires items != []
    ensures EncodeAll(items) + x == Encode(items[0]) + (EncodeAll(items[1..]) + x)
    ensures Kinds(items)[0] == items[0].Kind() && Kinds(items)[1..] == Kinds(items[1..])
  {
    Assoc(Encode(items[0]), EncodeAll(items[1..]), x);
  }

  ghost predicate AllWritable(items: seq<Item>) {
    forall k :: 0 <= k < |items| ==> items[k].Writable()
  }

  /** A list of values determines its bytes and conversely: the encoding is injective for each list of kinds. */
  lemma {:induction false} ListInjective(a: seq<Item>, b: seq<Item>, x: seq<byte>, y: seq<byte>)
    requires Kinds(a) == Kinds(b)
    requires AllWritable(a) && AllWritable(b)
    requires EncodeAll(a) + x == EncodeAll(b) + y
    ensures a == b && x == y
  {
    if a == [] {
      assert [] + x == x && [] + y == y;
    } else {
      EncodeCons(a, x);
      EncodeCons(b, y);
      ItemPrefixFree(a[0], b[0], EncodeAll(a[1..]) + x, EncodeAll(b[1..]) + y);
      ListInjective(a[1..], b[1..], x, y);
      assert a == [a[0]] + a[1..] && b == [b[0]] + b[1..];
    }
  }

  /** The mpint encoding is the shortest one with a clear sign bit. */
  lemma MpintIsMinimal(n: nat, s: seq<byte>)
    requires Big(s) == n && (s != [] ==> s[0] < 0x80)
    ensures |MpintBody(n)| <= |s|
  {
    var m := Minimal(n);
    MinimalIsShortest(s);
    if |m| == |s| {
      BigMinimal(n);
      FixedBig(m);
      FixedBig(s);
    }
  }
}
