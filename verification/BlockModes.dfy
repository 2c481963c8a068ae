/** A 16-byte block cipher and the operations both modes build on. */
module BlockCipher {
  import opened Bytes

  const BLOCK := 16

  type Bytes16 = s: seq<byte> | |s| == BLOCK witness seq(BLOCK, _ => 0)

  datatype Block = Block(b: Bytes16)

  datatype Cipher = Cipher(enc: Block -> Block, dec: Block -> Block)

  ghost predicate DecUndoesEnc(c: Cipher) {
    forall b: Block :: c.dec(c.enc(b)) == b
  }

  ghost predicate EncUndoesDec(c: Cipher) {
    forall b: Block :: c.enc(c.dec(b)) == b
  }

  function XorBlock(x: Block, y: Block): (r: Block)
    ensures forall i :: 0 <= i < BLOCK ==> r.b[i] == Xor(x.b[i], y.b[i])
  {
    Block(seq(BLOCK, i requires 0 <= i < BLOCK => Xor(x.b[i], y.b[i])))
  }

  lemma XorBlockUndo(x: Block, y: Block)
    ensures XorBlock(XorBlock(x, y), y) == x
  {
    var r := XorBlock(XorBlock(x, y), y);
    forall i | 0 <= i < BLOCK
      ensures r.b[i] == x.b[i]
    {
      XorUndo(x.b[i], y.b[i]);
    }
    assert r.b == x.b;
  }

  function Concat<T>(parts: seq<seq<T>>): seq<T> {
    if parts == [] then [] else parts[0] + Concat(parts[1..])
  }

  // ----- Blocks in memory -----

  /** Block `k` of the range of memory that starts at `p`. */
  function Nth(m: seq<byte>, p: nat, k: nat): Block
    requires p + BLOCK * k + BLOCK <= |m|
  {
    Block(m[p + BLOCK * k..p + BLOCK * k + BLOCK])
  }

  function Put(m: seq<byte>, p: nat, k: nat, x: Block): (r: seq<byte>)
    requires p + BLOCK * k + BLOCK <= |m|
    ensures |r| == |m|
  {
    m[..p + BLOCK * k] + x.b + m[p + BLOCK * k + BLOCK..]
  }

  /** The bytes outside a range. */
  function Around(m: seq<byte>, lo: nat, hi: nat): (seq<byte>, seq<byte>)
    requires lo <= hi <= |m|
  {
    (m[..lo], m[hi..])
  }

  /** Different blocks of a range do not overlap. */
  lemma Disjoint(k: nat, i: nat)
    requires k != i
    ensures BLOCK * k + BLOCK <= BLOCK * i || BLOCK * i + BLOCK <= BLOCK * k
  {
  }

  lemma PutThere(m: seq<byte>, p: nat, k: nat, x: Block)
    requires p + BLOCK * k + BLOCK <= |m|
    ensures Nth(Put(m, p, k, x), p, k) == x
  {
    var q := p + BLOCK * k;
    assert Put(m, p, k, x)[q..q + BLOCK] == x.b;
  }

  lemma NthAlone(m: seq<byte>, p: nat, k: nat)
    requires p + BLOCK * k + BLOCK <= |m|
    ensures Nth(m, p + BLOCK * k, 0) == Nth(m, p, k)
  {
  }

  lemma PutElsewhere(m: seq<byte>, p: nat, k: nat, x: Block, j: nat)
    requires p + BLOCK * k + BLOCK <= |m| && p + BLOCK * j + BLOCK <= |m| && j != k
    ensures Nth(Put(m, p, k, x), p, j) == Nth(m, p, j)
  {
    Disjoint(k, j);
    var q := p + BLOCK * j;
    assert Put(m, p, k, x)[q..q + BLOCK] == m[q..q + BLOCK];
  }

  lemma PutAround(m: seq<byte>, p: nat, k: nat, x: Block, n: nat)
    requires k < n && p + BLOCK * n <= |m|
    ensures Around(Put(m, p, k, x), p, p + BLOCK * n) == Around(m, p, p + BLOCK * n)
  {
    var r := Put(m, p, k, x);
    assert r[..p] == m[..p] && r[p + BLOCK * n..] == m[p + BLOCK * n..];
  }

  lemma PutTwice(m: seq<byte>, p: nat, k: nat, x: Block, y: Block)
    requires p + BLOCK * k + BLOCK <= |m|
    ensures Put(Put(m, p, k, x), p, k, y) == Put(m, p, k, y)
  {
  }

  /** Writes a block. */
  method Store(a: array<byte>, p: nat, k: nat, x: Block)
    requires p + BLOCK * k + BLOCK <= a.Length
    modifies a
    ensures a[..] == Put(old(a[..]), p, k, x)
  {
    var q := p + BLOCK * k;
    forall j | 0 <= j < BLOCK { a[q + j] := x.b[j]; }
    assert a[..q] == old(a[..])[..q] && a[q + BLOCK..] == old(a[..])[q + BLOCK..] && a[q..q + BLOCK] == x.b;
    assert a[..] == a[..q] + a[q..q + BLOCK] + a[q + BLOCK..];
  }

  /** Fills a block-sized buffer with the exclusive or of two blocks, byte by byte. */
  method Mix(buf: array<byte>, a: array<byte>, p: nat, k: nat, b: array<byte>, q: nat)
    requires buf.Length == BLOCK && buf != a && buf != b && p + BLOCK * k + BLOCK <= a.Length && q + BLOCK <= b.Length
    modifies buf
    ensures Block(buf[..]) == XorBlock(Nth(a[..], p, k), Nth(b[..], q, 0))
  {
    var j := 0;
    while j < BLOCK
      invariant 0 <= j <= BLOCK
      invariant forall i :: 0 <= i < j ==> buf[i] == Xor(a[p + BLOCK * k + i], b[q + i])
    {
      buf[j] := Xor(a[p + BLOCK * k + j], b[q + j]);
      j := j + 1;
    }
    assert buf[..] == XorBlock(Nth(a[..], p, k), Nth(b[..], q, 0)).b;
  }

  /** Exclusive or of a block onto another, in place; the two may lie in one array. */
  method XorOnto(a: array<byte>, p: nat, k: nat, b: array<byte>, q: nat)
    requires p + BLOCK * k + BLOCK <= a.Length && q + BLOCK <= b.Length && (a != b || q + BLOCK <= p + BLOCK * k)
    modifies a
    ensures a[..] == Put(old(a[..]), p, k, XorBlock(Nth(old(a[..]), p, k), Nth(old(b[..]), q, 0)))
  {
    var r, j := p + BLOCK * k, 0;
    while j < BLOCK
      invariant 0 <= j <= BLOCK
      invariant forall i :: 0 <= i < a.Length && !(r <= i < r + j) ==> a[i] == old(a[i])
      invariant forall i :: r <= i < r + j ==> a[i] == Xor(old(a[i]), old(b[q + (i - r)]))
    {
      a[r + j] := Xor(a[r + j], b[q + j]);
      j := j + 1;
    }
    ghost var was := old(a[..]);
    ghost var mixed := XorBlock(Nth(was, p, k), Nth(old(b[..]), q, 0));
    assert a[..r] == was[..r] && a[r + BLOCK..] == was[r + BLOCK..] && a[r..r + BLOCK] == mixed.b;
    assert a[..] == a[..r] + a[r..r + BLOCK] + a[r + BLOCK..];
  }
}

/** Cipher block chaining as in cipher-aes.c. */
module Cbc {
  import opened BlockCipher

  /** The block that the next one is chained to. */
  function Last(iv: Block, s: seq<Block>): Block {
    if s == [] then iv else s[|s| - 1]
  }

  function Encrypt(c: Cipher, iv: Block, plain: seq<Block>): (r: seq<Block>)
    ensures |r| == |plain|
  {
    if plain == [] then []
    else
      var front := Encrypt(c, iv, plain[..|plain| - 1]);
      front + [c.enc(XorBlock(plain[|plain| - 1], Last(iv, front)))]
  }

  function Decrypt(c: Cipher, iv: Block, coded: seq<Block>): (r: seq<Block>)
    ensures |r| == |coded|
  {
    if coded == [] then []
    else
      var front := coded[..|coded| - 1];
      Decrypt(c, iv, front) + [XorBlock(c.dec(coded[|coded| - 1]), Last(iv, front))]
  }

  function Crypted(c: Cipher, encrypt: bool, iv: Block, s: seq<Block>): (r: seq<Block>)
    ensures |r| == |s|
  {
    if encrypt then Encrypt(c, iv, s) else Decrypt(c, iv, s)
  }

  /** The vector that a call leaves: the last block of ciphertext. */
  function Chained(c: Cipher, encrypt: bool, iv: Block, s: seq<Block>): Block {
    Last(iv, if encrypt then Encrypt(c, iv, s) else s)
  }

  /** Each block is chained to the ciphertext block in front of it. */
  lemma {:induction false} EncryptAt(c: Cipher, iv: Block, plain: seq<Block>, i: nat)
    requires i < |plain|
    ensures Encrypt(c, iv, plain)[i] == c.enc(XorBlock(plain[i], if i == 0 then iv else Encrypt(c, iv, plain)[i - 1]))
    decreases |plain|
  {
    if i < |plain| - 1 {
      EncryptAt(c, iv, plain[..|plain| - 1], i);
    }
  }

  lemma {:induction false} DecryptAt(c: Cipher, iv: Block, coded: seq<Block>, i: nat)
    requires i < |coded|
    ensures Decrypt(c, iv, coded)[i] == XorBlock(c.dec(coded[i]), if i == 0 then iv else coded[i - 1])
    decreases |coded|
  {
    if i < |coded| - 1 {
      DecryptAt(c, iv, coded[..|coded| - 1], i);
    }
  }

  /** Decryption undoes encryption, for any number of blocks. */
  lemma {:induction false} DecryptUndoesEncrypt(c: Cipher, iv: Block, plain: seq<Block>)
    requires DecUndoesEnc(c)
    ensures Decrypt(c, iv, Encrypt(c, iv, plain)) == plain
    decreases |plain|
  {
    if plain != [] {
      var front := plain[..|plain| - 1];
      var coded := Encrypt(c, iv, plain);
      DecryptUndoesEncrypt(c, iv, front);
      assert coded[..|coded| - 1] == Encrypt(c, iv, front);
      XorBlockUndo(plain[|plain| - 1], Last(iv, Encrypt(c, iv, front)));
      assert plain == front + [plain[|plain| - 1]];
    }
  }

  /** Encryption undoes decryption, so every ciphertext has a plaintext. */
  lemma {:induction false} EncryptUndoesDecrypt(c: Cipher, iv: Block, coded: seq<Block>)
    requires EncUndoesDec(c)
    ensures Encrypt(c, iv, Decrypt(c, iv, coded)) == coded
    decreases |coded|
  {
    if coded != [] {
      var front := coded[..|coded| - 1];
      var plain := Decrypt(c, iv, coded);
      EncryptUndoesDecrypt(c, iv, front);
      assert plain[..|plain| - 1] == Decrypt(c, iv, front);
      XorBlockUndo(c.dec(coded[|coded| - 1]), Last(iv, front));
      assert coded == front + [coded[|coded| - 1]];
    }
  }

  /** A message may be encrypted in two calls: the stored vector carries the chain. */
  lemma {:induction false} EncryptSplits(c: Cipher, iv: Block, a: seq<Block>, b: seq<Block>)
    ensures Encrypt(c, iv, a + b) == Encrypt(c, iv, a) + Encrypt(c, Last(iv, Encrypt(c, iv, a)), b)
    decreases |b|
  {
    if b == [] {
      assert a + b == a;
    } else {
      var front := b[..|b| - 1];
      assert (a + b)[..|a + b| - 1] == a + front;
      EncryptSplits(c, iv, a, front);
    }
  }

  lemma {:induction false} DecryptSplits(c: Cipher, iv: Block, a: seq<Block>, b: seq<Block>)
    ensures Decrypt(c, iv, a + b) == Decrypt(c, iv, a) + Decrypt(c, Last(iv, a), b)
    decreases |b|
  {
    if b == [] {
      assert a + b == a;
    } else {
      var front := b[..|b| - 1];
      assert (a + b)[..|a + b| - 1] == a + front;
      DecryptSplits(c, iv, a, front);
    }
  }

  /** The output of several calls on one context. */
  function EncryptCalls(c: Cipher, iv: Block, calls: seq<seq<Block>>): seq<Block>
    decreases |calls|
  {
    if calls == [] then []
    else
      var out := Encrypt(c, iv, calls[0]);
      out + EncryptCalls(c, Last(iv, out), calls[1..])
  }

  function DecryptCalls(c: Cipher, iv: Block, calls: seq<seq<Block>>): seq<Block>
    decreases |calls|
  {
    if calls == [] then [] else Decrypt(c, iv, calls[0]) + DecryptCalls(c, Last(iv, calls[0]), calls[1..])
  }

  lemma {:induction false} EncryptCallsAreOne(c: Cipher, iv: Block, calls: seq<seq<Block>>)
    ensures EncryptCalls(c, iv, calls) == Encrypt(c, iv, Concat(calls))
    decreases |calls|
  {
    if calls != [] {
      EncryptSplits(c, iv, calls[0], Concat(calls[1..]));
      EncryptCallsAreOne(c, Last(iv, Encrypt(c, iv, calls[0])), calls[1..]);
    }
  }

  lemma {:induction false} DecryptCallsAreOne(c: Cipher, iv: Block, calls: seq<seq<Block>>)
    ensures DecryptCalls(c, iv, calls) == Decrypt(c, iv, Concat(calls))
    decreases |calls|
  {
    if calls != [] {
      DecryptSplits(c, iv, calls[0], Concat(calls[1..]));
      DecryptCallsAreOne(c, Last(iv, calls[0]), calls[1..]);
    }
  }

  /** A whole connection: however sender and receiver cut the stream into calls, the receiver gets what was sent. */
  lemma StreamIsRecovered(c: Cipher, iv: Block, sent: seq<seq<Block>>, received: seq<seq<Block>>)
    requires DecUndoesEnc(c) && Concat(received) == EncryptCalls(c, iv, sent)
    ensures DecryptCalls(c, iv, received) == Concat(sent)
  {
    EncryptCallsAreOne(c, iv, sent);
    DecryptCallsAreOne(c, iv, received);
    DecryptUndoesEncrypt(c, iv, Concat(sent));
  }
}

/** The context of cipher-aes.c: works on arrays, in place or from one array to another. */
module CbcObject {
  import opened Bytes
  import opened BlockCipher
  import opened Cbc

  /** The blocks in a range of memory. */
  function BlocksAt(m: seq<byte>, p: nat, n: nat): (r: seq<Block>)
    requires p + BLOCK * n <= |m|
    ensures |r| == n && forall k :: 0 <= k < n ==> r[k] == Nth(m, p, k)
  {
    if n == 0 then [] else BlocksAt(m, p, n - 1) + [Nth(m, p, n - 1)]
  }

  /** Between turns of the forward loop: `i` blocks of `coded` are written, and `plain` is still there from `i` on. */
  ghost predicate Forward(dm: seq<byte>, d: nat, sm: seq<byte>, s: nat, i: nat, plain: seq<Block>, coded: seq<Block>)
    requires |plain| == |coded| && d + BLOCK * |plain| <= |dm| && s + BLOCK * |plain| <= |sm|
  {
    && i <= |plain|
    && (forall k :: 0 <= k < i ==> Nth(dm, d, k) == coded[k])
    && (forall k :: i <= k < |plain| ==> Nth(sm, s, k) == plain[k])
  }

  lemma ForwardStep(dm: seq<byte>, d: nat, sm: seq<byte>, s: nat, i: nat, plain: seq<Block>, coded: seq<Block>,
                    sm': seq<byte>)
    requires |plain| == |coded| && d + BLOCK * |plain| <= |dm| && s + BLOCK * |plain| <= |sm|
    requires i < |plain| && Forward(dm, d, sm, s, i, plain, coded)
    requires sm' == sm || (sm' == Put(dm, d, i, coded[i]) && sm == dm && s == d)
    ensures Forward(Put(dm, d, i, coded[i]), d, sm', s, i + 1, plain, coded)
  {
    PutThere(dm, d, i, coded[i]);
    forall k | 0 <= k < |plain| && k != i
      ensures Nth(Put(dm, d, i, coded[i]), d, k) == Nth(dm, d, k)
    {
      PutElsewhere(dm, d, i, coded[i], k);
    }
  }

  /** Between turns of the backward loop: `plain` is written from `i` on, and `coded` is still there below `i`. */
  ghost predicate Backward(dm: seq<byte>, d: nat, sm: seq<byte>, s: nat, i: nat, coded: seq<Block>, plain: seq<Block>)
    requires |plain| == |coded| && d + BLOCK * |plain| <= |dm| && s + BLOCK * |plain| <= |sm|
  {
    && i <= |plain|
    && (forall k :: i <= k < |plain| ==> Nth(dm, d, k) == plain[k])
    && (forall k :: 0 <= k < i ==> Nth(sm, s, k) == coded[k])
  }

  lemma BackwardStep(dm: seq<byte>, d: nat, sm: seq<byte>, s: nat, i: nat, coded: seq<Block>, plain: seq<Block>,
                     sm': seq<byte>)
    requires |plain| == |coded| && d + BLOCK * |plain| <= |dm| && s + BLOCK * |plain| <= |sm|
    requires i < |plain| && Backward(dm, d, sm, s, i + 1, coded, plain)
    requires sm' == sm || (sm' == Put(dm, d, i, plain[i]) && sm == dm && s == d)
    ensures Backward(Put(dm, d, i, plain[i]), d, sm', s, i, coded, plain)
  {
    PutThere(dm, d, i, plain[i]);
    forall k | 0 <= k < |plain| && k != i
      ensures Nth(Put(dm, d, i, plain[i]), d, k) == Nth(dm, d, k)
    {
      PutElsewhere(dm, d, i, plain[i], k);
    }
  }

  class Context {
    const cipher: Cipher
    const iv: array<byte>

    constructor (cipher: Cipher, iv: Block)
      ensures this.cipher == cipher && fresh(this.iv) && this.iv[..] == iv.b
    {
      this.cipher := cipher;
      var a := new byte[BLOCK](i requires 0 <= i < BLOCK => iv.b[i]);
      assert a[..] == iv.b;
      this.iv := a;
    }

    /** The output may go over the input or to a different array. */
    predicate Ready(dest: array<byte>, d: nat, src: array<byte>, s: nat, len: nat) {
      && iv.Length == BLOCK && iv != dest && iv != src
      && d + len <= dest.Length && s + len <= src.Length
      && (dest != src || d == s)
    }

    /** One turn of the forward loop. */
    method EncryptOne(buf: array<byte>, dest: array<byte>, d: nat, src: array<byte>, s: nat, i: nat,
                      cprev: array<byte>, q: nat)
      requires d + BLOCK * i + BLOCK <= dest.Length && s + BLOCK * i + BLOCK <= src.Length && q + BLOCK <= cprev.Length
      requires buf.Length == BLOCK && buf != dest && buf != src && buf != cprev
      modifies buf, dest
      ensures dest[..] == Put(old(dest[..]), d, i,
                              cipher.enc(XorBlock(Nth(old(src[..]), s, i), Nth(old(cprev[..]), q, 0))))
    {
      Mix(buf, src, s, i, cprev, q);
      Store(dest, d, i, cipher.enc(Block(buf[..])));
    }

    /** The forward loop; returns where the last ciphertext block is. */
    method ForwardLoop(dest: array<byte>, d: nat, src: array<byte>, s: nat, n: nat, ghost iv0: Block,
                       ghost plain: seq<Block>)
      returns (cprev: array<byte>, q: nat)
      requires n == |plain| && Ready(dest, d, src, s, BLOCK * n)
      requires Nth(iv[..], 0, 0) == iv0 && plain == BlocksAt(src[..], s, n)
      modifies dest
      ensures Around(dest[..], d, d + BLOCK * n) == old(Around(dest[..], d, d + BLOCK * n))
      ensures Forward(dest[..], d, src[..], s, n, plain, Encrypt(cipher, iv0, plain))
      ensures q + BLOCK <= cprev.Length
      ensures Nth(cprev[..], q, 0) == if n == 0 then iv0 else Encrypt(cipher, iv0, plain)[n - 1]
    {
      ghost var coded := Encrypt(cipher, iv0, plain);
      var buf := new byte[BLOCK](_ => 0);
      var i := 0;
      cprev, q := iv, 0;
      while i < n
        invariant 0 <= i <= n && q + BLOCK <= cprev.Length && (cprev == iv || cprev == dest)
        invariant Around(dest[..], d, d + BLOCK * n) == old(Around(dest[..], d, d + BLOCK * n))
        invariant Nth(cprev[..], q, 0) == (if i == 0 then iv0 else coded[i - 1])
        invariant Forward(dest[..], d, src[..], s, i, plain, coded)
      {
        EncryptAt(cipher, iv0, plain, i);
        ForwardTurn(buf, dest, d, src, s, i, n, cprev, q, plain, coded);
        cprev, q := dest, d + BLOCK * i;
        NthAlone(dest[..], d, i);
        i := i + 1;
      }
    }

    /** One turn of the forward loop: block `i`, chained to the one at `q`. */
    method ForwardTurn(buf: array<byte>, dest: array<byte>, d: nat, src: array<byte>, s: nat, i: nat, n: nat,
                       cprev: array<byte>, q: nat, ghost plain: seq<Block>, ghost coded: seq<Block>)
      requires n == |plain| == |coded| && i < n && Ready(dest, d, src, s, BLOCK * n)
      requires buf.Length == BLOCK && buf != dest && buf != src && buf != cprev && q + BLOCK <= cprev.Length
      requires cprev == iv || cprev == dest
      requires Forward(dest[..], d, src[..], s, i, plain, coded)
      requires coded[i] == cipher.enc(XorBlock(plain[i], Nth(cprev[..], q, 0)))
      modifies dest, buf
      ensures Forward(dest[..], d, src[..], s, i + 1, plain, coded) && Nth(dest[..], d, i) == coded[i]
      ensures Around(dest[..], d, d + BLOCK * n) == old(Around(dest[..], d, d + BLOCK * n))
    {
      ghost var dm, sm := dest[..], src[..];
      EncryptOne(buf, dest, d, src, s, i, cprev, q);
      ForwardStep(dm, d, sm, s, i, plain, coded, src[..]);
      PutAround(dm, d, i, coded[i], n);
      PutThere(dm, d, i, coded[i]);
    }

    /** `ssh_rijndael_cbc`, encrypting forwards. */
    method EncryptBlocks(dest: array<byte>, d: nat, src: array<byte>, s: nat, n: nat)
      requires Ready(dest, d, src, s, BLOCK * n)
      modifies dest, iv
      ensures Around(dest[..], d, d + BLOCK * n) == old(Around(dest[..], d, d + BLOCK * n))
      ensures BlocksAt(dest[..], d, n) == Encrypt(cipher, Block(old(iv[..])), BlocksAt(old(src[..]), s, n))
      ensures iv[..] == Last(Block(old(iv[..])), BlocksAt(dest[..], d, n)).b
    {
      ghost var plain, iv0 := BlocksAt(src[..], s, n), Block(iv[..]);
      assert iv[0..BLOCK] == iv[..];
      var cprev, q := ForwardLoop(dest, d, src, s, n, iv0, plain);
      assert BlocksAt(dest[..], d, n) == Encrypt(cipher, iv0, plain);
      SetIv(Nth(cprev[..], q, 0));
    }

    method SetIv(x: Block)
      requires iv.Length == BLOCK
      modifies iv
      ensures iv[..] == x.b
    {
      Store(iv, 0, 0, x);
      assert iv[..] == [] + x.b + [];
    }

    /** One turn of the backward loop. */
    method DecryptOne(dest: array<byte>, d: nat, src: array<byte>, s: nat, i: nat)
      requires Ready(dest, d, src, s, BLOCK * i + BLOCK)
      modifies dest
      ensures dest[..] == Put(old(dest[..]), d, i, XorBlock(cipher.dec(Nth(old(src[..]), s, i)),
                                                            if i == 0 then Block(iv[..])
                                                            else Nth(old(src[..]), s, i - 1)))
    {
      ghost var dm, x := dest[..], cipher.dec(Nth(src[..], s, i));
      Store(dest, d, i, cipher.dec(Nth(src[..], s, i)));
      PutThere(dm, d, i, x);
      if i == 0 {
        assert iv[0..BLOCK] == iv[..];
        XorOnto(dest, d, i, iv, 0);
        PutTwice(dm, d, i, x, XorBlock(x, Block(iv[..])));
      } else {
        PutElsewhere(dm, d, i, x, i - 1);
        ghost var y := Nth(old(src[..]), s, i - 1);
        assert Nth(src[..], s, i - 1) == y;
        XorOnto(dest, d, i, src, s + BLOCK * (i - 1));
        PutTwice(dm, d, i, x, XorBlock(x, y));
      }
    }

    /** `ssh_rijndael_cbc`, decrypting backwards so that no block is overwritten before it is used. */
    method DecryptBlocks(dest: array<byte>, d: nat, src: array<byte>, s: nat, n: nat)
      requires Ready(dest, d, src, s, BLOCK * n) && n > 0
      modifies dest, iv
      ensures Around(dest[..], d, d + BLOCK * n) == old(Around(dest[..], d, d + BLOCK * n))
      ensures BlocksAt(dest[..], d, n) == Decrypt(cipher, Block(old(iv[..])), BlocksAt(old(src[..]), s, n))
      ensures iv[..] == Last(Block(old(iv[..])), BlocksAt(old(src[..]), s, n)).b
    {
      ghost var coded, iv0 := BlocksAt(src[..], s, n), Block(iv[..]);
      ghost var plain := Decrypt(cipher, iv0, coded);
      var buf := Nth(src[..], s, n - 1);
      var i := n;
      while i > 0
        invariant 0 <= i <= n
        invariant iv[..] == iv0.b && Around(dest[..], d, d + BLOCK * n) == old(Around(dest[..], d, d + BLOCK * n))
        invariant Backward(dest[..], d, src[..], s, i, coded, plain)
      {
        ghost var dm, sm := dest[..], src[..];
        i := i - 1;
        DecryptAt(cipher, iv0, coded, i);
        DecryptOne(dest, d, src, s, i);
        BackwardStep(dm, d, sm, s, i, coded, plain, src[..]);
        PutAround(dm, d, i, plain[i], n);
      }
      assert BlocksAt(dest[..], d, n) == plain;
      SetIv(buf);
    }

    /** `ssh_rijndael_cbc`; false stands for the fatal error on a partial block, which changes nothing. */
    method Crypt(encrypt: bool, dest: array<byte>, d: nat, src: array<byte>, s: nat, len: nat) returns (ok: bool)
      requires Ready(dest, d, src, s, len)
      modifies dest, iv
      ensures ok <==> len % BLOCK == 0
      ensures ok ==> Around(dest[..], d, d + len) == old(Around(dest[..], d, d + len))
      ensures ok ==>
                BlocksAt(dest[..], d, len / BLOCK) ==
                Crypted(cipher, encrypt, Block(old(iv[..])), BlocksAt(old(src[..]), s, len / BLOCK))
      ensures ok ==> iv[..] == Chained(cipher, encrypt, Block(old(iv[..])), BlocksAt(old(src[..]), s, len / BLOCK)).b
      ensures !ok ==> dest[..] == old(dest[..]) && iv[..] == old(iv[..])
    {
      if len == 0 {
        return true;
      }
      if len % BLOCK != 0 {
        return false;
      }
      ok := true;
      CryptBlocks(encrypt, dest, d, src, s, len / BLOCK);
    }

    method CryptBlocks(encrypt: bool, dest: array<byte>, d: nat, src: array<byte>, s: nat, n: nat)
      requires Ready(dest, d, src, s, BLOCK * n) && n > 0
      modifies dest, iv
      ensures Around(dest[..], d, d + BLOCK * n) == old(Around(dest[..], d, d + BLOCK * n))
      ensures BlocksAt(dest[..], d, n) == Crypted(cipher, encrypt, Block(old(iv[..])), BlocksAt(old(src[..]), s, n))
      ensures iv[..] == Chained(cipher, encrypt, Block(old(iv[..])), BlocksAt(old(src[..]), s, n)).b
    {
      if encrypt {
        EncryptBlocks(dest, d, src, s, n);
      } else {
        DecryptBlocks(dest, d, src, s, n);
      }
    }
  }

  /** In place, a second context with the same key and vector restores the bytes that a first one encrypted. */
  method RoundTripInPlace(cipher: Cipher, v: Block, a: array<byte>)
    requires DecUndoesEnc(cipher) && a.Length % BLOCK == 0
    modifies a
    ensures BlocksAt(a[..], 0, a.Length / BLOCK) == BlocksAt(old(a[..]), 0, a.Length / BLOCK)
  {
    ghost var plain := BlocksAt(a[..], 0, a.Length / BLOCK);
    var sender := new Context(cipher, v);
    var receiver := new Context(cipher, v);
    var _ := sender.Crypt(true, a, 0, a, 0, a.Length);
    var _ := receiver.Crypt(false, a, 0, a, 0, a.Length);
    DecryptUndoesEncrypt(cipher, v, plain);
  }
}
