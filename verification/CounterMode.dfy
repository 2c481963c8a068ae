/** Counter mode as in cipher-ctr.c; section 4 of RFC 4344. */
module Ctr {
  import opened Arith
  import opened Bytes
  import opened Wire
  import opened BlockCipher

  // ----- The counter -----

  /** The bytes after `ssh_ctr_inc`: a carry runs from the last byte to the front. */
  function Inc(s: seq<byte>): (r: seq<byte>)
    ensures |r| == |s|
  {
    if s == [] then []
    else
      var front, last := s[..|s| - 1], s[|s| - 1];
      if last < 0xff then front + [last + 1] else Inc(front) + [0]
  }

  lemma CarryOut(v: nat, m: nat)
    requires 0 < m && v < m
    ensures 0x100 * ((v + 1) % m) == (0x100 * v + 0x100) % (0x100 * m)
  {
    if v + 1 == m {
      RemainderIs(0x100 * m, 0x100 * m, 1, 0);
      RemainderIs(m, m, 1, 0);
    } else {
      RemainderIs(0x100 * v + 0x100, 0x100 * m, 0, 0x100 * v + 0x100);
      RemainderIs(v + 1, m, 0, v + 1);
    }
  }

  lemma NoCarry(v: nat, last: byte, m: nat)
    requires v < m && last < 0xff
    ensures (0x100 * v + last + 1) % (0x100 * m) == 0x100 * v + last + 1
  {
    RemainderIs(0x100 * v + last + 1, 0x100 * m, 0, 0x100 * v + last + 1);
  }

  /** `ssh_ctr_inc` adds one to the big-endian value, modulo 256 to the number of bytes. */
  lemma {:induction false} IncAddsOne(s: seq<byte>)
    ensures Big(Inc(s)) == (Big(s) + 1) % Pow256(|s|)
  {
    if s != [] {
      var front, last := s[..|s| - 1], s[|s| - 1];
      var r := Inc(s);
      if last < 0xff {
        assert r[..|r| - 1] == front;
        NoCarry(Big(front), last, Pow256(|front|));
      } else {
        IncAddsOne(front);
        assert r[..|r| - 1] == Inc(front);
        CarryOut(Big(front), Pow256(|front|));
      }
    }
  }

  /** The counter block for a number; numbers are taken modulo 2 to the 128. */
  function Counter(x: nat): (b: Block) {
    Block(Fixed(x, |ZeroBlock()|))
  }

  lemma CounterIs(x: nat, b: Block)
    requires Big(b.b) == x % Pow256(|b.b|)
    ensures Counter(x) == b
  {
    FixedIs(b.b, x);
    assert |b.b| == |ZeroBlock()|;
  }

  function ZeroBlock(): Bytes16 { seq(BLOCK, _ => 0) }

  lemma ModSucc(x: nat, m: nat)
    requires m > 0
    ensures (x % m + 1) % m == (x + 1) % m
  {
    DivDef(x, m);
    if x % m + 1 < m {
      RemainderIs(x + 1, m, x / m, x % m + 1);
    } else {
      RemainderIs(x + 1, m, x / m + 1, 0);
    }
  }

  lemma IncFixed(x: nat, w: nat)
    ensures Inc(Fixed(x, w)) == Fixed(x + 1, w)
  {
    var s := Fixed(x, w);
    BigFixed(x, w);
    IncAddsOne(s);
    ModSucc(x, Pow256(w));
    BigFixed(x + 1, w);
    FixedBig(Inc(s));
    FixedBig(Fixed(x + 1, w));
  }

  lemma IncCounter(x: nat)
    ensures Inc(Counter(x).b) == Counter(x + 1).b
  {
    IncFixed(x, BLOCK);
  }

  lemma EveryBlockIsACounter(b: Block)
    ensures Counter(Big(b.b)) == b
  {
    FixedBig(b.b);
  }

  // ----- Calls -----

  function Blocks(len: nat): nat { (len + BLOCK - 1) / BLOCK }

  /** Byte `i` of the key stream that starts at counter `x`. */
  function KeyByte(c: Cipher, x: nat, i: nat): byte {
    c.enc(Counter(x + i / BLOCK)).b[i % BLOCK]
  }

  /** One call on data `s`, starting with counter `x`. */
  function Crypt(c: Cipher, x: nat, s: seq<byte>): (r: seq<byte>)
    ensures |r| == |s|
  {
    if s == [] then [] else Crypt(c, x, s[..|s| - 1]) + [Xor(s[|s| - 1], KeyByte(c, x, |s| - 1))]
  }

  lemma {:induction false} CryptAt(c: Cipher, x: nat, s: seq<byte>, i: nat)
    requires i < |s|
    ensures Crypt(c, x, s)[i] == Xor(s[i], KeyByte(c, x, i))
    decreases |s|
  {
    if i < |s| - 1 {
      CryptAt(c, x, s[..|s| - 1], i);
    }
  }

  /**
   * Byte `i` is combined with byte `i` modulo 16 of the encrypted counter block, which holds the starting number plus
   * the number of blocks before, most significant byte first.
   */
  lemma KeyStreamLaw(c: Cipher, x: nat, s: seq<byte>, i: nat, y: nat, b: Block)
    requires i < |s| && y == x + i / 16 && Big(b.b) == y % Pow256(|b.b|)
    ensures Crypt(c, x, s)[i] == Xor(s[i], c.enc(b).b[i % 16])
  {
    KeyByteIs(c, x, i, y, b);
    CryptAt(c, x, s, i);
  }

  lemma KeyByteIs(c: Cipher, x: nat, i: nat, y: nat, b: Block)
    requires y == x + i / BLOCK && Big(b.b) == y % Pow256(|b.b|)
    ensures KeyByte(c, x, i) == c.enc(b).b[i % BLOCK]
  {
    CounterIs(y, b);
  }

  /** Applied a second time from the same counter, a call restores the data. */
  lemma {:induction false} CryptTwice(c: Cipher, x: nat, s: seq<byte>)
    ensures Crypt(c, x, Crypt(c, x, s)) == s
    decreases |s|
  {
    if s != [] {
      var front, last := s[..|s| - 1], s[|s| - 1];
      var r := Crypt(c, x, s);
      CryptTwice(c, x, front);
      assert r[..|r| - 1] == Crypt(c, x, front);
      XorUndo(last, KeyByte(c, x, |front|));
      assert s == front + [last];
    }
  }

  lemma WholeBlocks(n: nat, k: nat)
    requires n % BLOCK == 0
    ensures (n + k) / BLOCK == Blocks(n) + k / BLOCK && (n + k) % BLOCK == k % BLOCK
  {
  }

  /** A call may be split behind any number of whole blocks. */
  lemma {:induction false} CryptSplits(c: Cipher, x: nat, a: seq<byte>, b: seq<byte>)
    requires |a| % BLOCK == 0
    ensures Crypt(c, x, a + b) == Crypt(c, x, a) + Crypt(c, x + Blocks(|a|), b)
    ensures Blocks(|a + b|) == Blocks(|a|) + Blocks(|b|)
    decreases |b|
  {
    WholeBlocks(|a|, |b| + BLOCK - 1);
    if b == [] {
      assert a + b == a;
    } else {
      var front := b[..|b| - 1];
      assert (a + b)[..|a + b| - 1] == a + front;
      CryptSplits(c, x, a, front);
      WholeBlocks(|a|, |front|);
    }
  }

  /** Zero bytes up to the end of the last block. */
  function FilledUp(s: seq<byte>): (r: seq<byte>)
    ensures |r| % BLOCK == 0 && |r| == BLOCK * Blocks(|s|) && s <= r
  {
    var pad := BLOCK * Blocks(|s|) - |s|;
    s + seq(pad, _ => 0)
  }

  lemma {:induction false} CryptPrefix(c: Cipher, x: nat, a: seq<byte>, b: seq<byte>)
    ensures Crypt(c, x, a + b)[..|a|] == Crypt(c, x, a)
    decreases |b|
  {
    if b == [] {
      assert a + b == a;
      assert Crypt(c, x, a)[..|a|] == Crypt(c, x, a);
    } else {
      var front := b[..|b| - 1];
      assert (a + b)[..|a + b| - 1] == a + front;
      CryptPrefix(c, x, a, front);
    }
  }

  /**
   * Any two calls are one call in which the first part is padded to whole blocks: the rest of its key stream is lost.
   */
  lemma TwoCallsPad(c: Cipher, x: nat, a: seq<byte>, b: seq<byte>)
    ensures var whole := Crypt(c, x, FilledUp(a) + b);
            && Crypt(c, x, a) == whole[..|a|]
            && Crypt(c, x + Blocks(|a|), b) == whole[|FilledUp(a)|..]
  {
    var p := FilledUp(a);
    CryptSplits(c, x, p, b);
    assert Blocks(|p|) == Blocks(|a|);
    var pad := p[|a|..];
    assert p == a + pad;
    CryptPrefix(c, x, a, pad);
    assert Crypt(c, x, p + b)[..|a|] == Crypt(c, x, p)[..|a|];
  }

  /** The counter after several calls. */
  function CounterAfter(x: nat, calls: seq<seq<byte>>): nat
    decreases |calls|
  {
    if calls == [] then x else CounterAfter(x + Blocks(|calls[0]|), calls[1..])
  }

  function CryptCalls(c: Cipher, x: nat, calls: seq<seq<byte>>): (r: seq<seq<byte>>)
    ensures |r| == |calls|
    decreases |calls|
  {
    if calls == [] then [] else [Crypt(c, x, calls[0])] + CryptCalls(c, x + Blocks(|calls[0]|), calls[1..])
  }

  lemma CallsCons(c: Cipher, x: nat, calls: seq<seq<byte>>)
    requires calls != []
    ensures var coded := CryptCalls(c, x, calls);
            coded[0] == Crypt(c, x, calls[0]) && coded[1..] == CryptCalls(c, x + Blocks(|calls[0]|), calls[1..])
  {
  }

  /** A receiver that gets the sender's calls one by one recovers every one. */
  lemma {:induction false} CallsAreRecovered(c: Cipher, x: nat, calls: seq<seq<byte>>, i: nat)
    requires i < |calls|
    ensures CryptCalls(c, x, CryptCalls(c, x, calls))[i] == calls[i]
    decreases |calls|
  {
    var coded := CryptCalls(c, x, calls);
    CallsCons(c, x, calls);
    CallsCons(c, x, coded);
    if i == 0 {
      CryptTwice(c, x, calls[0]);
    } else {
      CallsAreRecovered(c, x + Blocks(|calls[0]|), calls[1..], i - 1);
    }
  }

  /** The receiver's counter keeps pace with the sender's. */
  lemma {:induction false} CountersKeepPace(c: Cipher, x: nat, y: nat, calls: seq<seq<byte>>)
    ensures CounterAfter(y, CryptCalls(c, x, calls)) == CounterAfter(y, calls)
    decreases |calls|
  {
    if calls != [] {
      CallsCons(c, x, calls);
      CountersKeepPace(c, x + Blocks(|calls[0]|), y + Blocks(|calls[0]|), calls[1..]);
    }
  }

  lemma DifferentRemainders(x: nat, y: nat, m: nat)
    requires 0 < y - x < m
    ensures x % m != y % m
  {
    DivDef(x, m);
    DivDef(y, m);
    MulSub(y / m, x / m, m);
    MulAtLeast(y / m - x / m, m);
  }

  /** No block of key stream is used twice within 2 to the 128 blocks. */
  lemma KeyStreamDoesNotRepeat(c: Cipher, x: nat, y: nat)
    requires DecUndoesEnc(c) && 0 < y - x < Pow256(BLOCK)
    ensures c.enc(Counter(x)) != c.enc(Counter(y))
  {
    BigFixed(x, BLOCK);
    BigFixed(y, BLOCK);
    DifferentRemainders(x, y, Pow256(BLOCK));
    assert c.dec(c.enc(Counter(x))) == Counter(x) && c.dec(c.enc(Counter(y))) == Counter(y);
  }
}

/** The context of cipher-ctr.c. */
module CtrObject {
  import opened Bytes
  import opened Wire
  import opened BlockCipher
  import opened Ctr

  /** What is still to be incremented is in front of position `i`. */
  ghost predicate CarryAt(m: seq<byte>, i: int, was: seq<byte>) {
    -1 <= i < |m| && Inc(was) == Inc(m[..i + 1]) + m[i + 1..]
  }

  lemma CarryStep(m: seq<byte>, i: nat, was: seq<byte>)
    requires i < |m| && CarryAt(m, i, was)
    ensures m[i] == 0xff ==> CarryAt(m[i := 0], i - 1, was)
    ensures m[i] < 0xff ==> m[i := m[i] + 1] == Inc(was)
  {
    var s, tail, front := m[..i + 1], m[i + 1..], m[..i];
    assert s[..i] == front && s[i] == m[i];
    IncLast(s, tail);
    if m[i] == 0xff {
      assert m[i := 0][..i] == front && m[i := 0][i..] == [0] + tail;
    } else {
      assert m[i := m[i] + 1] == front + ([m[i] + 1] + tail);
    }
  }

  lemma CarryEnds(m: seq<byte>, was: seq<byte>)
    ensures CarryAt(was, |was| - 1, was)
    ensures CarryAt(m, -1, was) ==> m == Inc(was)
  {
    assert was[..|was|] == was && Inc(was) + [] == Inc(was);
    assert m[..0] == [] && m[0..] == m;
  }

  /** `ssh_ctr_inc` */
  method CtrInc(ctr: array<byte>)
    modifies ctr
    ensures ctr[..] == Inc(old(ctr[..]))
  {
    ghost var was := ctr[..];
    CarryEnds(was, was);
    var i := ctr.Length - 1;
    while i >= 0
      invariant CarryAt(ctr[..], i, was)
    {
      ghost var m := ctr[..];
      CarryStep(m, i, was);
      var v: int := ctr[i];
      ctr[i] := (v + 1) % 0x100;
      assert ctr[..] == m[i := ctr[i]];
      if ctr[i] != 0 {
        return;
      }
      i := i - 1;
    }
    CarryEnds(ctr[..], was);
  }

  lemma IncLast(s: seq<byte>, tail: seq<byte>)
    requires s != []
    ensures var front, last := s[..|s| - 1], s[|s| - 1];
            Inc(s) + tail == if last == 0xff then Inc(front) + ([0] + tail) else front + ([last + 1] + tail)
  {
  }

  class Context {
    const cipher: Cipher
    const counter: array<byte>

    constructor (cipher: Cipher, iv: Block)
      ensures this.cipher == cipher && fresh(counter) && counter[..] == iv.b
    {
      this.cipher := cipher;
      var a := new byte[BLOCK](i requires 0 <= i < BLOCK => iv.b[i]);
      assert a[..] == iv.b;
      counter := a;
    }

    /** `ssh_aes_ctr`: the output may go over the input or to a different array. */
    method Crypt(dest: array<byte>, d: nat, src: array<byte>, s: nat, len: nat)
      requires counter.Length == BLOCK && counter != dest && counter != src
      requires d + len <= dest.Length && s + len <= src.Length && (dest != src || d == s)
      modifies dest, counter
      ensures Around(dest[..], d, d + len) == old(Around(dest[..], d, d + len))
      ensures dest[..][d..d + len] == Ctr.Crypt(cipher, Big(old(counter[..])), old(src[..])[s..s + len])
      ensures counter[..] == Counter(Big(old(counter[..])) + Blocks(len)).b
    {
      EveryBlockIsACounter(Block(counter[..]));
      CryptFrom(dest, d, src, s, len, Big(counter[..]));
    }

    method CryptFrom(dest: array<byte>, d: nat, src: array<byte>, s: nat, len: nat, ghost x: nat)
      requires counter[..] == Counter(x).b && counter != dest && counter != src
      requires d + len <= dest.Length && s + len <= src.Length && (dest != src || d == s)
      modifies dest, counter
      ensures Around(dest[..], d, d + len) == old(Around(dest[..], d, d + len))
      ensures dest[..][d..d + len] == Ctr.Crypt(cipher, x, old(src[..])[s..s + len])
      ensures counter[..] == Counter(x + Blocks(len)).b
    {
      ghost var plain := src[..][s..s + len];
      CryptBytes(cipher, x, plain);
      PartlyEnds(dest[..], d, src[..], s, plain, Ctr.Crypt(cipher, x, plain));
      ByteLoop(dest, d, src, s, len, x, plain, Ctr.Crypt(cipher, x, plain));
      PartlyEnds(dest[..], d, src[..], s, plain, Ctr.Crypt(cipher, x, plain));
    }

    /** The byte loop, for data `plain` whose exclusive or with the key stream is `coded`. */
    method ByteLoop(dest: array<byte>, d: nat, src: array<byte>, s: nat, len: nat, ghost x: nat,
                    ghost plain: seq<byte>, ghost coded: seq<byte>)
      requires counter != dest && counter != src && (dest != src || d == s)
      requires len == |plain| == |coded| && Streamed(cipher, x, plain, coded)
      requires counter[..] == Counter(x).b && Partly(dest[..], d, src[..], s, 0, plain, coded)
      modifies dest, counter
      ensures Partly(dest[..], d, src[..], s, len, plain, coded) && counter[..] == Counter(x + Blocks(len)).b
      ensures Around(dest[..], d, d + len) == old(Around(dest[..], d, d + len))
    {
      var buf := Block(ZeroBlock());
      var n, t := 0, 0;
      while t < len
        invariant 0 <= t <= len
        invariant KeyState(counter[..], cipher, buf, x, t, n)
        invariant Partly(dest[..], d, src[..], s, t, plain, coded)
        invariant Around(dest[..], d, d + len) == old(Around(dest[..], d, d + len))
      {
        buf, n := OneByte(buf, dest, d, src, s, x, t, n, plain, coded);
        t := t + 1;
      }
    }

    /** The body of the loop, for byte `t` of the data. */
    method OneByte(buf: Block, dest: array<byte>, d: nat, src: array<byte>, s: nat, ghost x: nat, t: nat, n: nat,
                   ghost plain: seq<byte>, ghost coded: seq<byte>)
      returns (buf': Block, n': nat)
      requires counter != dest && counter != src && (dest != src || d == s)
      requires t < |plain| == |coded| && coded[t] == Xor(plain[t], KeyByte(cipher, x, t))
      requires KeyState(counter[..], cipher, buf, x, t, n) && Partly(dest[..], d, src[..], s, t, plain, coded)
      modifies dest, counter
      ensures KeyState(counter[..], cipher, buf', x, t + 1, n') && Partly(dest[..], d, src[..], s, t + 1, plain, coded)
      ensures Around(dest[..], d, d + |plain|) == old(Around(dest[..], d, d + |plain|))
    {
      PartlyStep(dest[..], d, src[..], s, t, plain, coded);
      buf', n' := Turn(buf, dest, d + t, src, s + t, x, t, n);
    }

    /** One turn of the byte loop: a new block of key stream when the last one is used up, and one byte. */
    method Turn(buf: Block, dest: array<byte>, p: nat, src: array<byte>, q: nat, ghost x: nat, ghost t: nat, n: nat)
      returns (buf': Block, n': nat)
      requires KeyState(counter[..], cipher, buf, x, t, n)
      requires counter != dest && counter != src && p < dest.Length && q < src.Length
      modifies dest, counter
      ensures KeyState(counter[..], cipher, buf', x, t + 1, n')
      ensures dest[..] == old(dest[..])[p := Xor(old(src[q]), KeyByte(cipher, x, t))]
    {
      buf' := buf;
      if n == 0 {
        buf' := cipher.enc(Block(counter[..]));
        CtrInc(counter);
        IncCounter(x + Blocks(t));
      }
      KeyStateStep(old(counter[..]), counter[..], cipher, buf, buf', x, t, n);
      ghost var m := dest[..];
      dest[p] := Xor(src[q], buf'.b[n]);
      assert dest[..] == m[p := Xor(old(src[q]), KeyByte(cipher, x, t))];
      n' := (n + 1) % BLOCK;
    }
  }

  /** Where the key stream is after `t` bytes of a call that began with counter `x`. */
  ghost predicate KeyState(ctr: seq<byte>, c: Cipher, buf: Block, x: nat, t: nat, n: nat) {
    n == t % BLOCK && ctr == Counter(x + Blocks(t)).b && (n != 0 ==> buf == c.enc(Counter(x + t / BLOCK)))
  }

  lemma KeyStateStep(ctr: seq<byte>, ctr': seq<byte>, c: Cipher, buf: Block, buf': Block, x: nat, t: nat, n: nat)
    requires KeyState(ctr, c, buf, x, t, n)
    requires if n == 0 then buf' == c.enc(Counter(x + Blocks(t))) && ctr' == Counter(x + Blocks(t) + 1).b
             else buf' == buf && ctr' == ctr
    ensures buf'.b[n] == KeyByte(c, x, t) && KeyState(ctr', c, buf', x, t + 1, (n + 1) % BLOCK)
  {
    NextByte(t);
  }

  /** Every byte is combined with its byte of the key stream. */
  ghost predicate Streamed(c: Cipher, x: nat, plain: seq<byte>, coded: seq<byte>)
    requires |plain| == |coded|
  {
    forall t :: 0 <= t < |plain| ==> coded[t] == Xor(plain[t], KeyByte(c, x, t))
  }

  lemma CryptBytes(c: Cipher, x: nat, s: seq<byte>)
    ensures Streamed(c, x, s, Ctr.Crypt(c, x, s))
  {
    forall t | 0 <= t < |s|
      ensures Ctr.Crypt(c, x, s)[t] == Xor(s[t], KeyByte(c, x, t))
    {
      CryptAt(c, x, s, t);
    }
  }

  /** Between turns of the byte loop: `t` bytes of `coded` are written, and `plain` is still there from `t` on. */
  ghost predicate Partly(dm: seq<byte>, d: nat, sm: seq<byte>, s: nat, t: nat, plain: seq<byte>, coded: seq<byte>) {
    && t <= |plain| == |coded| && d + |plain| <= |dm| && s + |plain| <= |sm|
    && dm[d..d + t] == coded[..t] && sm[s + t..s + |plain|] == plain[t..]
  }

  lemma PartlyEnds(dm: seq<byte>, d: nat, sm: seq<byte>, s: nat, plain: seq<byte>, coded: seq<byte>)
    requires |plain| == |coded| && d + |plain| <= |dm| && s + |plain| <= |sm|
    ensures sm[s..s + |plain|] == plain ==> Partly(dm, d, sm, s, 0, plain, coded)
    ensures Partly(dm, d, sm, s, |plain|, plain, coded) ==> dm[d..d + |plain|] == coded
  {
    assert plain[0..] == plain && coded[..|plain|] == coded;
  }

  lemma PartlyStep(dm: seq<byte>, d: nat, sm: seq<byte>, s: nat, t: nat, plain: seq<byte>, coded: seq<byte>)
    requires Partly(dm, d, sm, s, t, plain, coded) && t < |plain|
    ensures sm[s + t] == plain[t]
    ensures var dm' := dm[d + t := coded[t]];
            && Partly(dm', d, sm, s, t + 1, plain, coded)
            && (sm == dm && s == d ==> Partly(dm', d, dm', s, t + 1, plain, coded))
            && Around(dm', d, d + |plain|) == Around(dm, d, d + |plain|)
  {
    var dm', e := dm[d + t := coded[t]], s + |plain|;
    assert sm[s + t..e][0] == plain[t..][0];
    assert sm[s + t + 1..e] == sm[s + t..e][1..] && plain[t + 1..] == plain[t..][1..];
    assert dm'[d..d + t + 1] == dm[d..d + t] + [coded[t]];
    assert dm'[..d] == dm[..d] && dm'[d + |plain|..] == dm[d + |plain|..];
    if sm == dm && s == d {
      assert dm'[s + t + 1..e] == dm[s + t + 1..e];
    }
  }

  lemma NextByte(t: nat)
    ensures (t % BLOCK + 1) % BLOCK == (t + 1) % BLOCK
    ensures t % BLOCK == 0 ==> Blocks(t) == t / BLOCK && Blocks(t + 1) == Blocks(t) + 1
    ensures t % BLOCK != 0 ==> Blocks(t + 1) == Blocks(t)
    ensures (t + 1) % BLOCK != 0 ==> (t + 1) / BLOCK == t / BLOCK
  {
  }
}
