/** The CRC-32 compensation attack detector of protocol 1: an open-addressing index of cipher blocks. */
module Deattack {
  import opened Bytes

  const MAX_IDENTICAL := 32
  const SSH_MAXBLOCKS := 32 * 1024
  const SSH_BLOCKSIZE := 8
  const HASH_MINSIZE := 8 * 1024
  const HASH_ENTRYSIZE := 2
  const HASH_UNUSED: uint16 := 0xffff
  const HASH_MINBLOCKS := 7 * SSH_BLOCKSIZE

  /** The eight bytes of a cipher block as two big-endian words; the first word is what the index hashes on. */
  datatype Block = Block(hi: uint32, lo: uint32)

  datatype Verdict = Fatal | Ok | Detected | DosDetected

  function Word(buf: seq<byte>, k: nat): uint32
    requires k + 4 <= |buf|
  {
    var b0: int, b1: int, b2: int, b3: int := buf[k], buf[k + 1], buf[k + 2], buf[k + 3];
    b0 * 0x100_0000 + b1 * 0x1_0000 + b2 * 0x100 + b3
  }

  function BlockAt(buf: seq<byte>, k: nat): Block
    requires k + 8 <= |buf|
  {
    Block(Word(buf, k), Word(buf, k + 4))
  }

  /** The cipher blocks of a packet. */
  function Blocks(buf: seq<byte>): (bs: seq<Block>)
    ensures |bs| == |buf| / 8
  {
    seq(|buf| / 8, (j: int) requires 0 <= j < |buf| / 8 => BlockAt(buf, 8 * j))
  }

  /** Comparing blocks is comparing their bytes. */
  lemma BlockEquality(buf: seq<byte>, i: nat, j: nat)
    requires i < |buf| / 8 && j < |buf| / 8
    ensures Blocks(buf)[i] == Blocks(buf)[j] <==> buf[8 * i .. 8 * i + 8] == buf[8 * j .. 8 * j + 8]
  {
    var a, b := buf[8 * i .. 8 * i + 8], buf[8 * j .. 8 * j + 8];
    assert BlockAt(buf, 8 * i) == BlockAt(a, 0) && BlockAt(buf, 8 * j) == BlockAt(b, 0);
    if BlockAt(a, 0) == BlockAt(b, 0) {
      WordInjective(a, b, 0);
      WordInjective(a, b, 4);
    }
  }

  lemma WordInjective(a: seq<byte>, b: seq<byte>, k: nat)
    requires k + 4 <= |a| && k + 4 <= |b| && Word(a, k) == Word(b, k)
    ensures a[k] == b[k] && a[k + 1] == b[k + 1] && a[k + 2] == b[k + 2] && a[k + 3] == b[k + 3]
  {
  }

  // ----- What the detector is for, stated without a table -----

  /** Position `j` holds a block that already occurred. */
  ghost predicate Repeat(bs: seq<Block>, j: nat)
    requires j < |bs|
  {
    exists d :: 0 <= d < j && bs[d] == bs[j]
  }

  /** The repeated positions below `upto`, in order. */
  ghost function Repeats(bs: seq<Block>, upto: nat): (r: seq<nat>)
    requires upto <= |bs|
    ensures |r| <= upto && (upto > 0 ==> |r| < upto)
    ensures forall k :: 0 <= k < |r| ==> r[k] < upto
  {
    if upto == 0 then []
    else
      var r := Repeats(bs, upto - 1);
      if Repeat(bs, upto - 1) then r + [upto - 1] else r
  }

  /** One of the first 32 repeated blocks has the compensating CRC pattern. */
  ghost predicate AttackSeen(bs: seq<Block>, passes: Block -> bool)
  {
    var r := Repeats(bs, |bs|);
    exists k :: 0 <= k < |r| && k < 32 && passes(bs[r[k]])
  }

  /** The verdict that both paths of the detector must give. */
  ghost function Reference(bs: seq<Block>, passes: Block -> bool): Verdict
  {
    if AttackSeen(bs, passes) then Detected
    else if |Repeats(bs, |bs|)| > 32 then DosDetected
    else Ok
  }

  lemma {:induction false} RepeatsArePrefixes(bs: seq<Block>, a: nat, b: nat)
    requires a <= b <= |bs|
    ensures |Repeats(bs, a)| <= |Repeats(bs, b)|
    ensures Repeats(bs, a) == Repeats(bs, b)[..|Repeats(bs, a)|]
    decreases b
  {
    if a < b {
      RepeatsArePrefixes(bs, a, b - 1);
      assert Repeats(bs, b - 1) == Repeats(bs, b)[..|Repeats(bs, b - 1)|];
    }
  }

  /** The list holds exactly the repeated positions. */
  lemma {:induction false} RepeatsAreRepeats(bs: seq<Block>, upto: nat, k: nat)
    requires upto <= |bs| && k < |Repeats(bs, upto)|
    ensures Repeat(bs, Repeats(bs, upto)[k])
  {
    if k < |Repeats(bs, upto - 1)| {
      RepeatsAreRepeats(bs, upto - 1, k);
    }
  }

  lemma {:induction false} RepeatsIsComplete(bs: seq<Block>, upto: nat, j: nat)
    requires j < upto <= |bs| && Repeat(bs, j)
    ensures j in Repeats(bs, upto)
  {
    if j < upto - 1 {
      RepeatsIsComplete(bs, upto - 1, j);
    }
  }

  /** No repeated block among the first `j` has the pattern. */
  ghost predicate Clean(bs: seq<Block>, passes: Block -> bool, j: nat)
    requires j <= |bs|
  {
    forall k :: 0 <= k < |Repeats(bs, j)| ==> !passes(bs[Repeats(bs, j)[k]])
  }

  /** A repeat at `j` is the next entry of the full list. */
  lemma RepeatIndex(bs: seq<Block>, j: nat)
    requires j < |bs| && Repeat(bs, j)
    ensures |Repeats(bs, j)| < |Repeats(bs, |bs|)| && Repeats(bs, |bs|)[|Repeats(bs, j)|] == j
  {
    var r := Repeats(bs, j);
    assert Repeats(bs, j + 1) == r + [j];
    RepeatsArePrefixes(bs, j + 1, |bs|);
    assert Repeats(bs, |bs|)[..|r| + 1][|r|] == j;
  }

  lemma CleanStep(bs: seq<Block>, passes: Block -> bool, j: nat)
    requires j < |bs| && Clean(bs, passes, j) && (Repeat(bs, j) ==> !passes(bs[j]))
    ensures Clean(bs, passes, j + 1)
    ensures |Repeats(bs, j + 1)| == |Repeats(bs, j)| + if Repeat(bs, j) then 1 else 0
  {
  }

  /** What the scan may conclude when it meets a repeat after fewer than MAX_IDENTICAL harmless ones. */
  lemma RepeatWithPattern(bs: seq<Block>, passes: Block -> bool, j: nat)
    requires j < |bs| && Repeat(bs, j) && |Repeats(bs, j)| < MAX_IDENTICAL && passes(bs[j])
    ensures Reference(bs, passes) == Detected
  {
    RepeatIndex(bs, j);
    var r, k := Repeats(bs, |bs|), |Repeats(bs, j)|;
    assert k < |r| && passes(bs[r[k]]);
  }

  lemma OneRepeatTooMany(bs: seq<Block>, passes: Block -> bool, j: nat)
    requires j < |bs| && Repeat(bs, j) && |Repeats(bs, j)| == MAX_IDENTICAL && Clean(bs, passes, j)
    ensures Reference(bs, passes) == DosDetected
  {
    RepeatIndex(bs, j);
    RepeatsArePrefixes(bs, j, |bs|);
  }

  lemma CleanToTheEnd(bs: seq<Block>, passes: Block -> bool)
    requires |Repeats(bs, |bs|)| <= MAX_IDENTICAL && Clean(bs, passes, |bs|)
    ensures Reference(bs, passes) == Ok
  {
  }

  /** If a block with the pattern is repeated and at most 32 repeats exist, then the packet is an attack. */
  lemma FewRepeatsAreExact(bs: seq<Block>, passes: Block -> bool)
    requires |Repeats(bs, |bs|)| <= 32
    ensures Reference(bs, passes) == Detected <==> exists j :: 0 <= j < |bs| && Repeat(bs, j) && passes(bs[j])
    ensures Reference(bs, passes) != DosDetected
  {
    var r := Repeats(bs, |bs|);
    if j :| 0 <= j < |bs| && Repeat(bs, j) && passes(bs[j]) {
      RepeatsIsComplete(bs, |bs|, j);
      var k :| 0 <= k < |r| && r[k] == j;
      assert passes(bs[r[k]]);
    }
    if AttackSeen(bs, passes) {
      var k :| 0 <= k < |r| && k < MAX_IDENTICAL && passes(bs[r[k]]);
      RepeatsAreRepeats(bs, |bs|, k);
    }
  }

  // ----- The probe sequence -----

  /** The sizes the table can have: 4096 quadrupled until 3/2 of SSH_MAXBLOCKS fits. */
  predicate TableSize(n: int) { n == 0x1000 || n == 0x4000 || n == 0x1_0000 }

  lemma MaskTable(x: nat, n: nat)
    requires TableSize(n)
    ensures BitAnd(x, n - 1) == x % n
  {
    assert Pow2(12) == 0x1000;
    assert Pow2(14) == 0x4000;
    assert Pow2(16) == 0x1_0000;
    MaskIsRemainder(x, if n == 0x1000 then 12 else if n == 0x4000 then 14 else 16);
  }

  function Home(b: Block, n: nat): (r: nat)
    requires n > 0
    ensures r < n
  {
    b.hi % n
  }

  /** The slot `t` steps after `home`, cyclically. */
  function Slot(home: nat, t: nat, n: nat): (s: nat)
    requires home < n && t < n
    ensures s < n
  {
    if home + t < n then home + t else home + t - n
  }

  /** How many steps after `home` slot `s` comes. */
  function Dist(home: nat, s: nat, n: nat): (t: nat)
    requires home < n && s < n
    ensures t < n && Slot(home, t, n) == s
  {
    if s >= home then s - home else s - home + n
  }

  lemma NextMasked(i: nat, n: nat)
    requires TableSize(n) && i < n
    ensures BitAnd(i + 1, n - 1) == if i + 1 == n then 0 else i + 1
  {
    MaskTable(i + 1, n);
    if i + 1 == n { assert n % n == 0; } else { assert (i + 1) % n == i + 1; }
  }

  lemma NextSlot(home: nat, t: nat, n: nat)
    requires home < n && t + 1 < n
    ensures Slot(home, t + 1, n) == if Slot(home, t, n) + 1 == n then 0 else Slot(home, t, n) + 1
  {
  }

  /** The masked arithmetic of the probing loop walks the slots cyclically from the home of the block. */
  lemma MaskedProbe(b: Block, t: nat, n: nat)
    requires TableSize(n) && t < n
    ensures BitAnd(b.hi, n - 1) == Slot(Home(b, n), 0, n)
    ensures t + 1 < n ==> BitAnd(Slot(Home(b, n), t, n) + 1, n - 1) == Slot(Home(b, n), t + 1, n)
  {
    MaskTable(b.hi, n);
    NextMasked(Slot(Home(b, n), t, n), n);
    if t + 1 < n { NextSlot(Home(b, n), t, n); }
  }

  ghost predicate Used(h: seq<uint16>, s: nat)
    requires s < |h|
  {
    h[s] != HASH_UNUSED
  }

  ghost function UsedSlots(h: seq<uint16>): set<nat> {
    set s: nat | s < |h| && Used(h, s)
  }

  /** Every slot between the home of the block recorded in `s` and `s` itself is in use. */
  ghost predicate Reachable(h: seq<uint16>, bs: seq<Block>, s: nat)
    requires s < |h| && h[s] < |bs|
  {
    var home := Home(bs[h[s]], |h|);
    forall u: nat :: u < Dist(home, s, |h|) ==> Used(h, Slot(home, u, |h|))
  }

  ghost predicate Bounded(h: seq<uint16>, j: nat) {
    forall s: nat :: s < |h| && Used(h, s) ==> h[s] < j
  }

  ghost predicate AllReachable(h: seq<uint16>, bs: seq<Block>)
    requires Bounded(h, |bs|)
  {
    forall s: nat :: s < |h| && Used(h, s) ==> Reachable(h, bs, s)
  }

  /** Some used slot records a position holding block `b`. */
  ghost predicate Recorded(h: seq<uint16>, bs: seq<Block>, b: Block)
    requires Bounded(h, |bs|)
  {
    exists s: nat :: s < |h| && Used(h, s) && bs[h[s]] == b
  }

  /** Invariant of the index once the first `j` blocks have been entered. */
  ghost predicate Indexes(h: seq<uint16>, bs: seq<Block>, j: nat)
    requires j <= |bs|
  {
    && |h| > 0
    && Bounded(h, j)
    && AllReachable(h, bs)
    && (forall d: nat :: d < j ==> Recorded(h, bs, bs[d]))
    && |UsedSlots(h)| <= j
  }

  /** A probe from the home of `b` passed `t` used slots, none of which records `b`. */
  ghost predicate Probed(h: seq<uint16>, bs: seq<Block>, b: Block, t: nat)
    requires t <= |h| && |h| > 0 && Bounded(h, |bs|)
  {
    forall u: nat :: u < t ==>
      var s := Slot(Home(b, |h|), u, |h|);
      Used(h, s) && bs[h[s]] != b
  }

  ghost function Below(n: nat): (r: set<nat>)
    ensures |r| == n && forall s: nat :: s in r <==> s < n
  {
    if n == 0 then {} else Below(n - 1) + {n - 1}
  }

  lemma FullTable(h: seq<uint16>)
    requires forall s: nat :: s < |h| ==> Used(h, s)
    ensures |UsedSlots(h)| == |h|
  {
    assert UsedSlots(h) == Below(|h|);
  }

  /** A probe that has met only used slots has not gone all the way round, since some slot is free. */
  lemma ProbeStops(h: seq<uint16>, bs: seq<Block>, b: Block, t: nat)
    requires 0 < t <= |h| && |UsedSlots(h)| < |h| && Bounded(h, |bs|)
    requires Probed(h, bs, b, t)
    ensures t < |h|
  {
    if forall s: nat :: s < |h| ==> Used(h, s) {
      FullTable(h);
    }
    var f: nat :| f < |h| && !Used(h, f);
    assert Slot(Home(b, |h|), Dist(Home(b, |h|), f, |h|), |h|) == f;
  }

  /** A probe for a recorded block has not yet met a free slot. */
  lemma RecordedIsMet(h: seq<uint16>, bs: seq<Block>, b: Block, t: nat)
    requires 0 < |h| && t < |h| && Bounded(h, |bs|) && AllReachable(h, bs)
    requires Recorded(h, bs, b) && Probed(h, bs, b, t)
    ensures Used(h, Slot(Home(b, |h|), t, |h|))
  {
    var home := Home(b, |h|);
    var s: nat :| s < |h| && Used(h, s) && bs[h[s]] == b;
    assert Reachable(h, bs, s);
    assert Slot(home, Dist(home, s, |h|), |h|) == s;
  }

  lemma UsedStaysUsed(h: seq<uint16>, i: nat, j: uint16)
    requires i < |h| && j != HASH_UNUSED
    ensures forall s: nat :: s < |h| && Used(h, s) ==> Used(h[i := j], s)
    ensures UsedSlots(h[i := j]) == UsedSlots(h) + {i}
  {
  }

  lemma EnterKeepsReachable(h: seq<uint16>, bs: seq<Block>, j: nat, t: nat)
    requires j < |bs| && j < HASH_UNUSED && t < |h| && Bounded(h, j) && AllReachable(h, bs)
    requires Probed(h, bs, bs[j], t)
    ensures var h' := h[Slot(Home(bs[j], |h|), t, |h|) := j]; Bounded(h', j + 1) && AllReachable(h', bs)
  {
    var home := Home(bs[j], |h|);
    var i := Slot(home, t, |h|);
    var h' := h[i := j];
    UsedStaysUsed(h, i, j);
    assert Dist(home, i, |h|) == t;
    forall s: nat | s < |h'| && Used(h', s)
      ensures Reachable(h', bs, s)
    {
      if s != i { assert Reachable(h, bs, s); }
    }
  }

  lemma EnterKeepsRecorded(h: seq<uint16>, bs: seq<Block>, j: nat, i: nat, b: Block)
    requires j < |bs| && j < HASH_UNUSED && i < |h| && Bounded(h, j)
    requires Used(h, i) ==> bs[h[i]] == bs[j]
    requires b == bs[j] || Recorded(h, bs, b)
    ensures Bounded(h[i := j], |bs|) && Recorded(h[i := j], bs, b)
  {
    var h' := h[i := j];
    var s: nat := i;
    if b != bs[j] { s :| s < |h| && Used(h, s) && bs[h[s]] == b; }
    assert Used(h', s) && bs[h'[s]] == b;
  }

  /** Entering block `j` in the slot where the probe stopped keeps the index invariant. */
  lemma EnterKeepsIndex(h: seq<uint16>, bs: seq<Block>, j: nat, t: nat)
    requires j < |bs| && j < HASH_UNUSED && Indexes(h, bs, j) && t < |h|
    requires Probed(h, bs, bs[j], t)
    requires var i := Slot(Home(bs[j], |h|), t, |h|); Used(h, i) ==> bs[h[i]] == bs[j]
    ensures Indexes(h[Slot(Home(bs[j], |h|), t, |h|) := j], bs, j + 1)
  {
    var i := Slot(Home(bs[j], |h|), t, |h|);
    EnterKeepsReachable(h, bs, j, t);
    forall d: nat | d < j + 1
      ensures Recorded(h[i := j], bs, bs[d])
    {
      EnterKeepsRecorded(h, bs, j, i, bs[d]);
    }
    UsedStaysUsed(h, i, j);
  }

  lemma EmptyIndex(h: seq<uint16>, bs: seq<Block>)
    requires |h| > 0 && forall s: nat :: s < |h| ==> h[s] == HASH_UNUSED
    ensures Indexes(h, bs, 0)
  {
    assert UsedSlots(h) == {};
  }

  // ----- The detector -----

  /** CRC of the pattern that marks where `b` occurs among `bs`; the CRC update itself is a parameter. */
  function PatternCrc(update: (uint32, uint32) -> uint32, b: Block, bs: seq<Block>): uint32 {
    if bs == [] then 0
    else
      var crc := PatternCrc(update, b, bs[..|bs| - 1]);
      update(update(crc, if bs[|bs| - 1] == b then 1 else 0), 0)
  }

  /** A running CRC over a list of words. */
  function Fold(update: (uint32, uint32) -> uint32, words: seq<uint32>): uint32 {
    if words == [] then 0 else update(Fold(update, words[..|words| - 1]), words[|words| - 1])
  }

  /** The pattern has two words for each block: whether it equals `b`, and zero. */
  lemma {:induction false} PatternHasTwoWords(update: (uint32, uint32) -> uint32, b: Block, bs: seq<Block>,
                                              words: seq<uint32>)
    requires |words| == 2 * |bs|
    requires forall k :: 0 <= k < |bs| ==> words[2 * k] == (if bs[k] == b then 1 else 0) && words[2 * k + 1] == 0
    ensures PatternCrc(update, b, bs) == Fold(update, words)
    decreases |bs|
  {
    if bs != [] {
      var n := |bs| - 1;
      PatternHasTwoWords(update, b, bs[..n], words[..2 * n]);
      assert words[..|words| - 1][..2 * n] == words[..2 * n];
      assert words[2 * n] == (if bs[n] == b then 1 else 0) && words[2 * n + 1] == 0;
    }
  }

  ghost function Passes(update: (uint32, uint32) -> uint32, bs: seq<Block>): Block -> bool {
    b => PatternCrc(update, b, bs) == 0
  }

  /** The static state of `detect_attack`: the table and its size survive from call to call. */
  class Detector {
    const update: (uint32, uint32) -> uint32
    var h: array?<uint16>
    var n: uint32

    ghost predicate Valid()
      reads this
    {
      TableSize(n) && (h != null ==> h.Length == n)
    }

    constructor (update: (uint32, uint32) -> uint32)
      ensures Valid() && this.update == update && h == null
    {
      this.update := update;
      h := null;
      n := HASH_MINSIZE / HASH_ENTRYSIZE;
    }

    /** `check_crc`: does the pattern of block `b` in the packet have CRC zero? */
    method CheckCrc(b: Block, bs: seq<Block>) returns (r: bool)
      ensures r == Passes(update, bs)(b)
    {
      var crc: uint32 := 0;
      var k := 0;
      while k < |bs|
        invariant 0 <= k <= |bs|
        invariant crc == PatternCrc(update, b, bs[..k])
      {
        assert bs[..k + 1][..k] == bs[..k];
        if bs[k] == b {
          crc := update(crc, 1);
          crc := update(crc, 0);
        } else {
          crc := update(crc, 0);
          crc := update(crc, 0);
        }
        k := k + 1;
      }
      assert bs[..k] == bs;
      r := crc == 0;
    }

    /** `detect_attack` meets the table-free reference on every packet, whatever earlier packets left in the table. */
    method DetectAttack(buf: seq<byte>) returns (v: Verdict)
      requires Valid()
      modifies this`h, this`n, h
      ensures Valid()
      ensures v == Fatal <==> |buf| > SSH_MAXBLOCKS * SSH_BLOCKSIZE || |buf| % SSH_BLOCKSIZE != 0
      ensures v != Fatal ==> v == Reference(Blocks(buf), Passes(update, Blocks(buf)))
      ensures v != Fatal ==> old(n) <= n && 2 * n >= 3 * (|buf| / SSH_BLOCKSIZE) - 1
      ensures h == old(h) || fresh(h)
    {
      if |buf| > SSH_MAXBLOCKS * SSH_BLOCKSIZE || |buf| % SSH_BLOCKSIZE != 0 {
        return Fatal;
      }
      var l := n;
      while l < (|buf| / SSH_BLOCKSIZE) * 3 / 2
        invariant TableSize(l) && n <= l
        decreases 0x1_0000 - l
      {
        l := l * 4;
      }
      if h == null {
        h := new uint16[l](_ => 0);
        n := l;
      } else if l > n {
        // xrealloc keeps the old entries, but the table is cleared before it is used.
        h := new uint16[l](_ => 0);
        n := l;
      }
      if |buf| <= HASH_MINBLOCKS {
        v := Quadratic(Blocks(buf));
      } else {
        v := Hashed(Blocks(buf));
      }
    }

    /** The scan used for packets of at most seven blocks. */
    method Quadratic(bs: seq<Block>) returns (v: Verdict)
      requires |bs| <= 7
      ensures v == Reference(bs, Passes(update, bs))
    {
      FewRepeatsAreExact(bs, Passes(update, bs));
      for c := 0 to |bs|
        invariant forall j :: 0 <= j < c && Repeat(bs, j) ==> !Passes(update, bs)(bs[j])
      {
        var d := 0;
        while d < c
          invariant 0 <= d <= c
          invariant forall e :: 0 <= e < d ==> bs[e] != bs[c]
        {
          if bs[c] == bs[d] {
            assert Repeat(bs, c);
            var hit := CheckCrc(bs[c], bs);
            if hit {
              return Detected;
            }
            break;
          }
          d := d + 1;
        }
      }
      v := Ok;
    }

    /** The scan through the open-addressing index, used for longer packets. */
    method Hashed(bs: seq<Block>) returns (v: Verdict)
      requires Valid() && h != null
      requires 7 < |bs| <= SSH_MAXBLOCKS && |bs| * 3 / 2 <= n
      modifies h
      ensures v == Reference(bs, Passes(update, bs))
    {
      forall s | 0 <= s < h.Length { h[s] := HASH_UNUSED; }
      EmptyIndex(h[..], bs);
      var same := 0;
      var j := 0;
      while j < |bs|
        invariant 0 <= j <= |bs|
        invariant Indexes(h[..], bs, j)
        invariant same == |Repeats(bs, j)| <= MAX_IDENTICAL
        invariant Clean(bs, Passes(update, bs), j)
      {
        var i, found := Probe(bs, j);
        if found {
          same := same + 1;
          if same > MAX_IDENTICAL {
            OneRepeatTooMany(bs, Passes(update, bs), j);
            return DosDetected;
          }
          var hit := CheckCrc(bs[j], bs);
          if hit {
            RepeatWithPattern(bs, Passes(update, bs), j);
            return Detected;
          }
        }
        CleanStep(bs, Passes(update, bs), j);
        ghost var entered := h[..][i := j];
        h[i] := j;
        assert h[..] == entered;
        j := j + 1;
      }
      CleanToTheEnd(bs, Passes(update, bs));
      v := Ok;
    }

    /**
     * The inner probing loop: it always stops, and it finds a record of the block exactly when the block is a repeat.
     */
    method Probe(bs: seq<Block>, j: nat) returns (i: nat, found: bool)
      requires Valid() && h != null
      requires j < |bs| <= SSH_MAXBLOCKS && |bs| < n
      requires Indexes(h[..], bs, j)
      ensures i < h.Length
      ensures found <==> Repeat(bs, j)
      ensures found <==> h[i] != HASH_UNUSED
      ensures Indexes(h[..][i := j], bs, j + 1)
    {
      ghost var table := h[..];
      ghost var home := Home(bs[j], n);
      ghost var t: nat := 0;
      MaskedProbe(bs[j], 0, n);
      i := BitAnd(bs[j].hi, n - 1);
      while h[i] != HASH_UNUSED
        invariant t < n && i == Slot(home, t, n)
        invariant Probed(table, bs, bs[j], t)
        decreases n - t
      {
        assert Used(table, i);
        if bs[j] == bs[h[i]] {
          EnterKeepsIndex(table, bs, j, t);
          return i, true;
        }
        MaskedProbe(bs[j], t, n);
        t := t + 1;
        ProbeStops(table, bs, bs[j], t);
        i := BitAnd(i + 1, n - 1);
      }
      if Recorded(table, bs, bs[j]) {
        RecordedIsMet(table, bs, bs[j], t);
      }
      EnterKeepsIndex(table, bs, j, t);
      found := false;
    }
  }
}
