/**
 * bufaux.c and bufbn.c: wire values written to and read from a buffer; `false` and `Fail` stand for the fatal errors.
 */
module BufferCodec {
  import opened Bytes
  import opened Wire
  import opened Buffers

  datatype Read<+T> = Fail | Read(value: T)

  /** Whether `k` more bytes surely fit: the buffer was only appended to and stays below the largest chunk. */
  ghost predicate Roomy(b: Buffer, k: nat)
    requires b.Valid()
    reads b, b.buf
  {
    b.Geometry().Slim() && |b.Contents()| + k <= BUFFER_MAX_CHUNK
  }

  /** `buffer_append`, with a sufficient condition for success. */
  method Add(b: Buffer, data: seq<byte>) returns (ok: bool)
    requires b.Valid() && |data| < U32
    modifies b, b.buf
    ensures b.Valid() && (b.buf == old(b.buf) || fresh(b.buf))
    ensures b.Contents() == old(b.Contents()) + if ok then data else []
    ensures ok && old(b.Geometry()).Slim() ==> b.Geometry().Slim()
    ensures old(Roomy(b, |data|)) ==> ok
  {
    SlimAccepts(b.Geometry(), |data|);
    ok := b.Append(data);
  }

  lemma SlimAccepts(s: Shape, len: nat)
    requires s.Valid()
    ensures s.Slim() && s.end + len <= BUFFER_MAX_CHUNK ==> s.Accepts(len)
  {
  }

  /** Two appends in a row, as most writers make them. */
  method AddTwo(b: Buffer, x: seq<byte>, y: seq<byte>) returns (ok: bool)
    requires b.Valid() && |x| < U32 && |y| < U32
    modifies b, b.buf
    ensures b.Valid() && (b.buf == old(b.buf) || fresh(b.buf))
    ensures ok ==> b.Contents() == old(b.Contents()) + (x + y)
    ensures ok && old(b.Geometry()).Slim() ==> b.Geometry().Slim()
    ensures old(Roomy(b, |x + y|)) ==> ok
  {
    ok := Add(b, x);
    if ok {
      ok := Add(b, y);
      Assoc(old(b.Contents()), x, y);
    }
  }

  method PutChar(b: Buffer, c: byte) returns (ok: bool)
    requires b.Valid()
    modifies b, b.buf
    ensures b.Valid() && (b.buf == old(b.buf) || fresh(b.buf))
    ensures ok ==> b.Contents() == old(b.Contents()) + Encode(Char(c))
    ensures ok && old(b.Geometry()).Slim() ==> b.Geometry().Slim()
    ensures old(Roomy(b, 1)) ==> ok
  {
    ok := Add(b, [c]);
  }

  method PutInt(b: Buffer, v: uint32) returns (ok: bool)
    requires b.Valid()
    modifies b, b.buf
    ensures b.Valid() && (b.buf == old(b.buf) || fresh(b.buf))
    ensures ok ==> b.Contents() == old(b.Contents()) + Encode(Int(v))
    ensures ok && old(b.Geometry()).Slim() ==> b.Geometry().Slim()
    ensures old(Roomy(b, 4)) ==> ok
  {
    ok := Add(b, Fixed(v, 4));
  }

  method PutString(b: Buffer, s: seq<byte>) returns (ok: bool)
    requires b.Valid() && |s| < U32
    modifies b, b.buf
    ensures b.Valid() && (b.buf == old(b.buf) || fresh(b.buf))
    ensures ok ==> b.Contents() == old(b.Contents()) + Encode(String(s))
    ensures ok && old(b.Geometry()).Slim() ==> b.Geometry().Slim()
    ensures old(Roomy(b, 4 + |s|)) ==> ok
  {
    ok := AddTwo(b, Fixed(|s|, 4), s);
  }

  /** The SSH2 form; the source builds the number behind a zero byte and drops that byte where it is not needed. */
  method PutBignum2(b: Buffer, n: nat) returns (ok: bool)
    requires b.Valid() && |Minimal(n)| + 1 < U32
    modifies b, b.buf
    ensures b.Valid() && (b.buf == old(b.buf) || fresh(b.buf))
    ensures ok ==> b.Contents() == old(b.Contents()) + Encode(Mpint(n))
    ensures ok && old(b.Geometry()).Slim() ==> b.Geometry().Slim()
    ensures old(Roomy(b, |Encode(Mpint(n))|)) ==> ok
  {
    if n == 0 {
      ok := PutInt(b, 0);
      assert Encode(Int(0)) == Encode(Mpint(0)) by { ZeroMpint(); }
      return;
    }
    var buf := [0] + Minimal(n);
    var hasnohigh := if buf[1] >= 0x80 then 0 else 1;
    assert buf[0..] == buf && buf[1..] == Minimal(n);
    assert buf[hasnohigh..] == MpintBody(n);
    ok := PutString(b, buf[hasnohigh..]);
  }

  lemma ZeroMpint()
    ensures Encode(Mpint(0)) == Encode(Int(0)) && |Encode(Mpint(0))| == 4
  {
    assert MpintBody(0) == [] && Fixed(0, 4) + [] == Fixed(0, 4);
  }

  /** The SSH1 form: a 16-bit count of bits, cut off where it does not fit, and the minimal bytes; zero is fatal. */
  method PutBignum(b: Buffer, n: nat) returns (ok: bool)
    requires b.Valid() && |Minimal(n)| < U32
    modifies b, b.buf
    ensures b.Valid() && (b.buf == old(b.buf) || fresh(b.buf))
    ensures ok ==> Write(Bignum1(n)).Some? && b.Contents() == old(b.Contents()) + Write(Bignum1(n)).value
    ensures ok && old(b.Geometry()).Slim() ==> b.Geometry().Slim()
    ensures n > 0 && old(Roomy(b, |Encode(Bignum1(n))|)) ==> ok
  {
    var bits := NumBits(n);
    if (bits + 7) / 8 == 0 {
      return false;
    }
    ok := AddTwo(b, Fixed(bits, 2), Minimal(n));
  }

  /** `buffer_get_ret`, as taking bytes from the front. */
  method Fetch(b: Buffer, n: uint32) returns (r: Read<seq<byte>>)
    requires b.Valid()
    modifies b`offset
    ensures b.Valid()
    ensures r.Fail? <==> Take(old(b.Contents()), n) == Bad
    ensures r.Read? ==> Take(old(b.Contents()), n) == Got(r.value, b.Contents())
  {
    var ok, data := b.Get(n);
    if !ok {
      return Fail;
    }
    TakeFront(data, b.Contents());
    r := Read(data);
  }

  method GetBig(b: Buffer, w: uint32) returns (r: Read<nat>)
    requires b.Valid()
    modifies b`offset
    ensures b.Valid()
    ensures r.Fail? <==> GetNumber(old(b.Contents()), w) == Bad
    ensures r.Read? ==> GetNumber(old(b.Contents()), w) == Got(r.value, b.Contents()) && r.value < Pow256(w)
  {
    var data := Fetch(b, w);
    if data.Fail? {
      return Fail;
    }
    r := Read(Big(data.value));
  }

  method GetChar(b: Buffer) returns (r: Read<byte>)
    requires b.Valid()
    modifies b`offset
    ensures b.Valid()
    ensures r.Fail? <==> Decode(KChar, old(b.Contents())) == Bad
    ensures r.Read? ==> Decode(KChar, old(b.Contents())) == Got(Char(r.value), b.Contents())
  {
    var data := Fetch(b, 1);
    if data.Fail? {
      return Fail;
    }
    r := Read(data.value[0]);
  }

  method GetInt(b: Buffer) returns (r: Read<uint32>)
    requires b.Valid()
    modifies b`offset
    ensures b.Valid()
    ensures r.Fail? <==> Decode(KInt, old(b.Contents())) == Bad
    ensures r.Read? ==> Decode(KInt, old(b.Contents())) == Got(Int(r.value), b.Contents())
  {
    Widths();
    var v := GetBig(b, 4);
    if v.Fail? {
      return Fail;
    }
    r := Read(v.value);
  }

  method GetString(b: Buffer) returns (r: Read<seq<byte>>)
    requires b.Valid()
    modifies b`offset
    ensures b.Valid()
    ensures r.Fail? <==> Decode(KString, old(b.Contents())) == Bad
    ensures r.Read? ==> Decode(KString, old(b.Contents())) == Got(String(r.value), b.Contents())
  {
    var len := GetBig(b, 4);
    if len.Fail? || len.value > MAX_STRING {
      return Fail;
    }
    r := Fetch(b, len.value);
  }

  method GetBignum2(b: Buffer) returns (r: Read<nat>)
    requires b.Valid()
    modifies b`offset
    ensures b.Valid()
    ensures r.Fail? <==> Decode(KMpint, old(b.Contents())) == Bad
    ensures r.Read? ==> Decode(KMpint, old(b.Contents())) == Got(Mpint(r.value), b.Contents())
  {
    var bin := GetString(b);
    if bin.Fail? {
      return Fail;
    }
    if (bin.value != [] && bin.value[0] >= 0x80) || |bin.value| > MAX_BIGNUM {
      return Fail;
    }
    r := Read(Big(bin.value));
  }

  method GetBignum(b: Buffer) returns (r: Read<nat>)
    requires b.Valid()
    modifies b`offset
    ensures b.Valid()
    ensures r.Fail? <==> Decode(KBignum1, old(b.Contents())) == Bad
    ensures r.Read? ==> Decode(KBignum1, old(b.Contents())) == Got(Bignum1(r.value), b.Contents())
  {
    var bits := GetBig(b, 2);
    if bits.Fail? {
      return Fail;
    }
    var bytes := (bits.value + 7) / 8;
    if bytes > MAX_BIGNUM {
      return Fail;
    }
    r := GetBig(b, bytes);
  }
}
