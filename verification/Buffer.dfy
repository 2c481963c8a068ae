/** The growing byte FIFO of buffer.c, refining a byte sequence. */
module Buffers {
  import opened Arith
  import opened Bytes

  const BUFFER_MAX_CHUNK := 0x10_0000
  const BUFFER_MAX_LEN := 0xa0_0000
  const BUFFER_ALLOCSZ := 0x8000
  const BUFFER_INITIAL := 4096

  /** `roundup` computed in 32-bit unsigned arithmetic, as the macro is expanded. */
  function Roundup32(x: int): uint32 {
    ((x % U32 + (BUFFER_ALLOCSZ - 1)) % U32 / BUFFER_ALLOCSZ) * BUFFER_ALLOCSZ
  }

  /** The geometry of a buffer: everything but the bytes. */
  datatype Shape = Shape(alloc: uint32, offset: uint32, end: uint32) {
    predicate Valid() {
      offset <= end < alloc && BUFFER_INITIAL <= alloc <= BUFFER_MAX_LEN
    }

    /** An empty buffer restarts at the beginning of its memory. */
    function Rewound(): Shape {
      if offset == end then this.(offset := 0, end := 0) else this
    }

    predicate Compacts() {
      offset > Min(alloc, BUFFER_MAX_CHUNK)
    }

    function Compacted(): Shape
      requires offset <= end
    {
      if Compacts() then this.(offset := 0, end := end - offset) else this
    }

    /** Whether `len` more bytes can be stored without exceeding the largest buffer. */
    predicate Accepts(len: nat)
      requires Valid()
    {
      && len <= BUFFER_MAX_CHUNK
      && (Rewound().Compacted().end + len < alloc || alloc + len <= BUFFER_MAX_LEN)
    }

    /** Never consumed from, and allocated at most twice what it holds plus one unit. */
    predicate Slim() {
      offset == 0 && alloc <= 2 * end + BUFFER_ALLOCSZ
    }

    /** The answer of `buffer_check_alloc`, computed in 32-bit unsigned arithmetic. */
    predicate CheckAlloc(len: uint32)
      requires Valid()
    {
      var s := Rewound();
      || (s.end + len) % U32 < alloc
      || (s.Compacted().end + len) % U32 < alloc
      || Roundup32(alloc + len) <= BUFFER_MAX_LEN
    }
  }

  /** The test announces exactly what the append accepts, for every chunk the append supports. */
  lemma CheckAllocIsExact(s: Shape, len: uint32)
    requires s.Valid() && len <= BUFFER_MAX_CHUNK
    ensures s.CheckAlloc(len) <==> s.Accepts(len)
  {
  }

  /** Beyond the supported chunk the two disagree: a fresh buffer, asked about one byte too many. */
  lemma CheckAllocOverpromises()
    ensures var s := Shape(BUFFER_INITIAL, 0, 0); s.CheckAlloc(BUFFER_MAX_CHUNK + 1) && !s.Accepts(BUFFER_MAX_CHUNK + 1)
  {
  }

  /** The test is right in every buffer state. */
  ghost predicate Agrees(len: uint32) {
    forall s: Shape :: s.Valid() ==> (s.CheckAlloc(len) <==> s.Accepts(len))
  }

  /** Lengths too large for any buffer, yet too small to wrap around in any buffer. */
  predicate HugeButExact(len: uint32) {
    BUFFER_MAX_LEN <= len < U32 - BUFFER_MAX_LEN - (BUFFER_ALLOCSZ - 1)
  }

  lemma HugeIsExact(s: Shape, len: uint32)
    requires s.Valid() && HugeButExact(len)
    ensures !s.CheckAlloc(len) && !s.Accepts(len)
  {
    assert s.Rewound().Valid();
  }

  lemma LargeDisagrees(len: uint32)
    requires BUFFER_MAX_CHUNK < len && !HugeButExact(len)
    ensures !Agrees(len)
  {
    if len < BUFFER_MAX_LEN {
      var s := Shape(BUFFER_MAX_LEN, 0, 0);
      assert s.Valid() && s.CheckAlloc(len) && !s.Accepts(len);
    } else {
      var s := Shape(BUFFER_MAX_LEN, 0, 1);
      assert s.Valid() && s.CheckAlloc(len) && !s.Accepts(len);
    }
  }

  /** Exactly for which lengths the test can be trusted in every buffer state. */
  lemma CheckAllocAgreement(len: uint32)
    ensures Agrees(len) <==> len <= BUFFER_MAX_CHUNK || HugeButExact(len)
  {
    if len <= BUFFER_MAX_CHUNK || HugeButExact(len) {
      forall s: Shape | s.Valid()
        ensures s.CheckAlloc(len) <==> s.Accepts(len)
      {
        if len <= BUFFER_MAX_CHUNK { CheckAllocIsExact(s, len); } else { HugeIsExact(s, len); }
      }
    } else {
      LargeDisagrees(len);
    }
  }

  // ----- The restart loop of `buffer_append_space`, on shapes -----

  /** The shape after `c` compactions and `r` reallocations for `len` more bytes. */
  ghost predicate Restarted(s0: Shape, s: Shape, len: nat, c: nat, r: nat) {
    && s0.Valid() && s.Valid() && c <= 1 && r <= 1
    && (c == 0 && r == 0 ==> s == s0.Rewound())
    && (c == 1 && r == 0 ==> s == s0.Rewound().Compacted())
    && (c == 1 ==> !s.Compacts())
    && (r == 1 ==> s.end + len < s.alloc && s0.Accepts(len))
    && (r == 0 ==> s.alloc == s0.alloc)
    && (s0.Slim() ==> s.offset == 0 && s.end == s0.end && s.alloc <= 2 * (s.end + len) + BUFFER_ALLOCSZ)
  }

  lemma Fitting(s0: Shape, s: Shape, len: nat, c: nat, r: nat)
    requires Restarted(s0, s, len, c, r) && len <= BUFFER_MAX_CHUNK && s.end + len < s.alloc
    ensures s0.Accepts(len) && (s0.Slim() ==> s.(end := s.end + len).Slim())
  {
  }

  lemma Compacting(s0: Shape, s: Shape, len: nat, c: nat, r: nat)
    requires Restarted(s0, s, len, c, r) && s.end + len >= s.alloc && s.Compacts()
    ensures c == 0 && r == 0 && Restarted(s0, s.Compacted(), len, 1, 0)
  {
  }

  lemma Growing(s0: Shape, s: Shape, len: nat, c: nat, r: nat, alloc: uint32)
    requires Restarted(s0, s, len, c, r) && len <= BUFFER_MAX_CHUNK && s.end + len >= s.alloc && !s.Compacts()
    requires s.alloc + len <= alloc < s.alloc + len + BUFFER_ALLOCSZ && alloc <= BUFFER_MAX_LEN
    ensures r == 0 && Restarted(s0, s.(alloc := alloc), len, c, 1)
  {
  }

  lemma Refusing(s0: Shape, s: Shape, len: nat, c: nat, r: nat)
    requires Restarted(s0, s, len, c, r) && s.end + len >= s.alloc && !s.Compacts() && s.alloc + len > BUFFER_MAX_LEN
    ensures !s0.Accepts(len)
  {
  }

  class Buffer {
    var buf: array<byte>
    var alloc: uint32
    var offset: uint32
    var end: uint32

    ghost predicate Valid()
      reads this
    {
      buf.Length == alloc && Geometry().Valid()
    }

    ghost function Geometry(): Shape
      reads this
    {
      Shape(alloc, offset, end)
    }

    /** The bytes held, oldest first. */
    ghost function Contents(): seq<byte>
      requires Valid()
      reads this, buf
    {
      buf[offset..end]
    }

    constructor ()
      ensures Valid() && fresh(buf) && Contents() == [] && Geometry().Slim()
    {
      buf := new byte[BUFFER_INITIAL](_ => 0);
      alloc, offset, end := BUFFER_INITIAL, 0, 0;
    }

    method Len() returns (n: uint32)
      requires Valid()
      ensures n == |Contents()|
    {
      n := end - offset;
    }

    method Compact() returns (moved: bool)
      requires Valid()
      modifies this, buf
      ensures Valid() && buf == old(buf) && Contents() == old(Contents())
      ensures moved == old(Geometry()).Compacts() && Geometry() == old(Geometry()).Compacted()
    {
      if offset > Min(alloc, BUFFER_MAX_CHUNK) {
        forall i | 0 <= i < end - offset { buf[i] := buf[offset + i]; }
        end := end - offset;
        offset := 0;
        return true;
      }
      return false;
    }

    method Rewind()
      requires Valid()
      modifies this
      ensures Valid() && buf == old(buf) && Contents() == old(Contents())
      ensures Geometry() == old(Geometry()).Rewound()
    {
      if offset == end {
        offset, end := 0, 0;
      }
    }

    /** Enlarges the memory for `len` more bytes, unless that would exceed the largest buffer. */
    method Grow(len: uint32) returns (ok: bool)
      requires Valid() && len <= BUFFER_MAX_CHUNK
      modifies this
      ensures Valid() && (buf == old(buf) || fresh(buf)) && Contents() == old(Contents())
      ensures ok <==> old(alloc) + len <= BUFFER_MAX_LEN
      ensures offset == old(offset) && end == old(end)
      ensures ok ==> old(alloc) + len <= alloc < old(alloc) + len + BUFFER_ALLOCSZ
    {
      var newlen := Roundup32(alloc + len);
      if newlen > BUFFER_MAX_LEN {
        return false;
      }
      var bigger := new byte[newlen](_ => 0);
      forall i | 0 <= i < alloc { bigger[i] := buf[i]; }
      buf, alloc := bigger, newlen;
      assert buf[offset..end] == old(buf[offset..end]);
      ok := true;
    }

    /**
     * `buffer_append_space`: reserves `len` bytes after the contents and returns where they start.
     * `ok` is false where the source calls `fatal`. The `goto restart` loop makes at most one
     * compaction and one reallocation.
     */
    method AppendSpace(len: uint32) returns (ok: bool, p: uint32, ghost compactions: nat, ghost reallocations: nat)
      requires Valid()
      modifies this, buf
      ensures Valid() && (buf == old(buf) || fresh(buf))
      ensures ok <==> old(Geometry()).Accepts(len)
      ensures ok ==> end - offset == |old(Contents())| + len && p == end - len
      ensures ok ==> buf[offset..p] == old(Contents())
      ensures !ok ==> Contents() == old(Contents())
      ensures compactions <= 1 && reallocations <= 1
      ensures ok && old(Geometry()).Slim() ==> Geometry().Slim()
    {
      ok, p, compactions, reallocations := false, 0, 0, 0;
      if len > BUFFER_MAX_CHUNK {
        return;
      }
      ghost var start := Geometry();
      Rewind();
      while true
        invariant Valid() && (buf == old(buf) || fresh(buf))
        invariant Contents() == old(Contents())
        invariant Restarted(start, Geometry(), len, compactions, reallocations)
        decreases 2 - compactions - reallocations
      {
        ghost var now := Geometry();
        if end + len < alloc {
          Fitting(start, now, len, compactions, reallocations);
          p := Claim(len);
          ok := true;
          return;
        }
        var moved, grown := MakeRoom(len);
        if moved {
          Compacting(start, now, len, compactions, reallocations);
          compactions := compactions + 1;
        } else if grown {
          Growing(start, now, len, compactions, reallocations, alloc);
          reallocations := reallocations + 1;
        } else {
          Refusing(start, now, len, compactions, reallocations);
          return;
        }
      }
    }

    /** Takes the bytes behind the contents. */
    method Claim(len: uint32) returns (p: uint32)
      requires Valid() && end + len < alloc
      modifies this`end
      ensures Valid() && end == old(end) + len && p == old(end)
    {
      p := end;
      end := end + len;
    }

    /** One restart: compaction if that pays, otherwise reallocation. */
    method MakeRoom(len: uint32) returns (moved: bool, grown: bool)
      requires Valid() && len <= BUFFER_MAX_CHUNK
      modifies this, buf
      ensures Valid() && (buf == old(buf) || fresh(buf)) && Contents() == old(Contents())
      ensures moved == old(Geometry()).Compacts()
      ensures moved ==> Geometry() == old(Geometry()).Compacted()
      ensures !moved ==> Geometry() == old(Geometry()).(alloc := alloc)
      ensures !moved ==> (grown <==> old(alloc) + len <= BUFFER_MAX_LEN)
      ensures !moved && grown ==> old(alloc) + len <= alloc < old(alloc) + len + BUFFER_ALLOCSZ
    {
      grown := false;
      moved := Compact();
      if !moved {
        grown := Grow(len);
      }
    }

    /** The copy into reserved space, which leaves the bytes in front of it alone. */
    method Fill(p: uint32, data: seq<byte>)
      requires Valid() && offset <= p && p + |data| == end
      modifies buf
      ensures Valid() && Contents() == old(buf[offset..p]) + data
    {
      forall i | 0 <= i < |data| { buf[p + i] := data[i]; }
      assert buf[offset..p] == old(buf[offset..p]);
      assert buf[p..end] == data;
      assert buf[offset..end] == buf[offset..p] + buf[p..end];
    }

    /** `buffer_append`: the contents grow at the end by exactly the given bytes. */
    method Append(data: seq<byte>) returns (ok: bool)
      requires Valid() && |data| < U32
      modifies this, buf
      ensures Valid() && (buf == old(buf) || fresh(buf))
      ensures ok <==> old(Geometry()).Accepts(|data|)
      ensures Contents() == old(Contents()) + if ok then data else []
      ensures ok && old(Geometry()).Slim() ==> Geometry().Slim()
    {
      var p;
      ghost var c, r;
      ok, p, c, r := AppendSpace(|data|);
      if ok {
        Fill(p, data);
      }
    }

    /** `buffer_check_alloc`: may compact, but leaves the contents alone. */
    method CheckAlloc(len: uint32) returns (r: bool)
      requires Valid()
      modifies this, buf
      ensures Valid() && buf == old(buf) && Contents() == old(Contents())
      ensures r == old(Geometry()).CheckAlloc(len)
    {
      Rewind();
      ghost var compacted := false;
      while true
        invariant Valid() && buf == old(buf) && Contents() == old(Contents())
        invariant !compacted ==> Geometry() == old(Geometry()).Rewound()
        invariant compacted ==> Geometry() == old(Geometry()).Rewound().Compacted() && !Geometry().Compacts()
        invariant compacted ==> (old(Geometry()).Rewound().end + len) % U32 >= alloc
        decreases !compacted
      {
        if (end + len) % U32 < alloc {
          return true;
        }
        var moved := Compact();
        if !moved {
          return Roundup32(alloc + len) <= BUFFER_MAX_LEN;
        }
        compacted := true;
      }
    }

    /** `buffer_get_ret`: takes bytes from the front. */
    method Get(len: uint32) returns (ok: bool, data: seq<byte>)
      requires Valid()
      modifies this`offset
      ensures Valid()
      ensures ok <==> len <= |old(Contents())|
      ensures ok ==> |data| == len && old(Contents()) == data + Contents()
      ensures !ok ==> data == [] && Contents() == old(Contents())
    {
      if len > end - offset {
        return false, [];
      }
      data := buf[offset..offset + len];
      offset := offset + len;
      assert old(Contents()) == data + Contents();
      ok := true;
    }

    /** `buffer_consume_ret`: drops bytes from the front. */
    method Consume(bytes: uint32) returns (ok: bool)
      requires Valid()
      modifies this`offset
      ensures Valid()
      ensures ok <==> bytes <= |old(Contents())|
      ensures Contents() == old(Contents())[if ok then bytes else 0..]
    {
      if bytes > end - offset {
        return false;
      }
      offset := offset + bytes;
      ok := true;
    }

    /** `buffer_consume_end_ret`: drops bytes from the end. */
    method ConsumeEnd(bytes: uint32) returns (ok: bool)
      requires Valid()
      modifies this`end
      ensures Valid()
      ensures ok <==> bytes <= |old(Contents())|
      ensures Contents() == old(Contents())[..|old(Contents())| - if ok then bytes else 0]
    {
      if bytes > end - offset {
        return false;
      }
      end := end - bytes;
      ok := true;
    }
  }
}
