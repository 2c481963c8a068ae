/** Completing a transfer over partial ones, as in atomicio.c. */
module AtomicIo {

  const IOV_MAX := 16

  /** One entry of the vector: a range of memory cells. */
  datatype Iovec = Iovec(base: int, len: nat)

  /**
   * One answer of the system: try again, an error, or cells moved (none at the end of file) with the callback's wish to
   * stop.
   */
  datatype Reply = Retry | Hard | Moved(n: nat, stop: bool)

  /** Where a call stands when the replies are used up: still waiting, or returned for one of the source's reasons. */
  datatype Outcome = Waiting(pos: nat) | Done(pos: nat) | Failed | Ended(pos: nat) | Stopped(pos: nat) | Fault | TooMany

  function Range(v: Iovec): (r: seq<int>)
    ensures |r| == v.len && forall i :: 0 <= i < v.len ==> r[i] == v.base + i
    decreases v.len
  {
    if v.len == 0 then [] else [v.base] + Range(Iovec(v.base + 1, v.len - 1))
  }

  /** The cells of a vector, in order. */
  function Cells(v: seq<Iovec>): seq<int> {
    if v == [] then [] else Range(v[0]) + Cells(v[1..])
  }

  /** The transfer of `total` cells without a vector, given the replies: what `atomicio6` does. */
  function Plain(total: nat, pos: nat, replies: seq<Reply>): Outcome
    decreases |replies|
  {
    if pos >= total then Done(pos)
    else if replies == [] then Waiting(pos)
    else
      match replies[0]
      case Retry => Plain(total, pos, replies[1..])
      case Hard => Failed
      case Moved(n, stop) =>
        if n == 0 then Ended(pos)
        else if stop then Stopped(pos + n)
        else Plain(total, pos + n, replies[1..])
  }

  /** How many cells a reply moved. */
  function Amount(r: Reply): nat { if r.Moved? then r.n else 0 }

  function Sum(replies: seq<Reply>): nat {
    if replies == [] then 0 else Amount(replies[0]) + Sum(replies[1..])
  }

  /** A reply after which the transfer goes on if something is left. */
  predicate GoesOn(r: Reply) { r.Retry? || (r.Moved? && r.n > 0 && !r.stop) }

  /** Reply `i` is the first one that is not followed by another, and `at` cells were moved before it. */
  ghost predicate StopsAt(total: nat, pos: nat, replies: seq<Reply>, i: nat, at: nat) {
    && i <= |replies| && at == pos + Sum(replies[..i])
    && (forall j :: 0 <= j < i ==> GoesOn(replies[j]) && pos + Sum(replies[..j]) < total)
    && (at >= total || i == |replies| || !GoesOn(replies[i]))
  }

  /**
   * The outcome by totals: the call is done once the replies sum up to what was asked for, and until then the first
   * error, end of file or wish to stop decides.
   */
  lemma {:induction false} PlainIsDecided(total: nat, pos: nat, replies: seq<Reply>) returns (i: nat, at: nat)
    ensures StopsAt(total, pos, replies, i, at)
    ensures Plain(total, pos, replies) ==
            if at >= total then Done(at)
            else if i == |replies| then Waiting(at)
            else if replies[i] == Hard then Failed
            else if Amount(replies[i]) == 0 then Ended(at)
            else Stopped(at + Amount(replies[i]))
    decreases |replies|
  {
    if pos >= total || replies == [] || !GoesOn(replies[0]) {
      i, at := 0, pos;
    } else {
      var rest := replies[1..];
      var k, a := PlainIsDecided(total, pos + Amount(replies[0]), rest);
      i, at := k + 1, a;
      assert replies[..i][1..] == rest[..k];
      forall j | 0 <= j < i
        ensures GoesOn(replies[j]) && pos + Sum(replies[..j]) < total
      {
        if j > 0 { assert replies[..j][1..] == rest[..j - 1] && replies[j] == rest[j - 1]; }
      }
    }
  }

  /** Whether the system ever claims to have moved more than it was asked to, before the transfer is over. */
  predicate Overruns(total: nat, pos: nat, replies: seq<Reply>)
    decreases |replies|
  {
    if pos >= total || replies == [] then false
    else
      match replies[0]
      case Retry => Overruns(total, pos, replies[1..])
      case Hard => false
      case Moved(n, stop) => n > total - pos || (n > 0 && !stop && Overruns(total, pos + n, replies[1..]))
  }

  /** `atomiciov6`: the plain transfer of all cells, but nothing at all if the first entry is empty. */
  function Vectored(v: seq<Iovec>, replies: seq<Reply>): Outcome {
    if |v| > IOV_MAX then TooMany
    else if v == [] || v[0].len == 0 then Done(0)
    else if Overruns(|Cells(v)|, 0, replies) then Fault
    else Plain(|Cells(v)|, 0, replies)
  }

  lemma {:induction false} DoneIsComplete(total: nat, pos: nat, replies: seq<Reply>)
    requires pos <= total && !Overruns(total, pos, replies) && Plain(total, pos, replies).Done?
    ensures Plain(total, pos, replies).pos == total
    decreases |replies|
  {
    if pos < total {
      match replies[0]
      case Retry => DoneIsComplete(total, pos, replies[1..]);
      case Moved(n, _) => DoneIsComplete(total, pos + n, replies[1..]);
    }
  }

  /**
   * A call that returns without an error has moved everything if and only if the first entry is not empty or all are.
   */
  lemma CompleteIffFirstNonEmpty(v: seq<Iovec>, replies: seq<Reply>)
    requires Vectored(v, replies).Done?
    ensures Vectored(v, replies).pos == |Cells(v)| <==> Cells(v) == [] || v[0].len > 0
  {
    if v != [] && v[0].len > 0 {
      DoneIsComplete(|Cells(v)|, 0, replies);
    }
  }

  /**
   * The failing family is not empty: an empty entry in front of a full one is reported as complete with nothing moved.
   */
  lemma EmptyFirstEntryIsLost()
    ensures var v := [Iovec(0, 0), Iovec(8, 3)]; Vectored(v, [Moved(3, false)]) == Done(0) && |Cells(v)| == 3
  {
    var v := [Iovec(0, 0), Iovec(8, 3)];
    assert v[1..] == [Iovec(8, 3)] && v[1..][1..] == [];
    assert Cells(v[1..]) == Range(Iovec(8, 3)) + Cells([]);
  }

  lemma {:induction false} CellsConcat(a: seq<Iovec>, b: seq<Iovec>)
    ensures Cells(a + b) == Cells(a) + Cells(b)
  {
    if a == [] {
      assert a + b == b;
    } else {
      CellsConcat(a[1..], b);
      assert (a + b)[1..] == a[1..] + b && (a + b)[0] == a[0];
      Regroup(Range(a[0]), Cells(a[1..]), Cells(b));
    }
  }

  lemma Regroup(x: seq<int>, y: seq<int>, z: seq<int>)
    ensures x + y + z == x + (y + z)
  {
  }

  lemma RangeSplits(v: Iovec, at: nat)
    requires at <= v.len
    ensures Range(Iovec(v.base, at)) + Range(Iovec(v.base + at, v.len - at)) == Range(v)
  {
  }

  function Halves(v: Iovec, at: nat): seq<Iovec>
    requires at <= v.len
  {
    [Iovec(v.base, at), Iovec(v.base + at, v.len - at)]
  }

  /** Entry `k` cut in two. */
  function SplitAt(v: seq<Iovec>, k: nat, at: nat): seq<Iovec>
    requires k < |v| && at <= v[k].len
  {
    v[..k] + (Halves(v[k], at) + v[k + 1..])
  }

  lemma SplitKeepsCells(v: seq<Iovec>, k: nat, at: nat)
    requires k < |v| && at <= v[k].len
    ensures Cells(SplitAt(v, k, at)) == Cells(v)
  {
    TwoHalves(v[k], at);
    MiddleReplaced(v[..k], Halves(v[k], at), [v[k]], v[k + 1..]);
    Taken(v, k);
  }

  lemma Taken(v: seq<Iovec>, k: nat)
    requires k < |v|
    ensures v[..k] + ([v[k]] + v[k + 1..]) == v
  {
  }

  lemma MiddleReplaced(a: seq<Iovec>, m: seq<Iovec>, m': seq<Iovec>, b: seq<Iovec>)
    requires Cells(m) == Cells(m')
    ensures Cells(a + (m + b)) == Cells(a + (m' + b))
  {
    CellsConcat(m, b);
    CellsConcat(m', b);
    CellsConcat(a, m + b);
    CellsConcat(a, m' + b);
  }

  lemma TwoHalves(v: Iovec, at: nat)
    requires at <= v.len
    ensures Cells(Halves(v, at)) == Cells([v])
  {
    var x, y := Iovec(v.base, at), Iovec(v.base + at, v.len - at);
    RangeSplits(v, at);
    OneEntry(v);
    OneEntry(y);
    assert [x, y][1..] == [y];
  }

  lemma OneEntry(v: Iovec)
    ensures Cells([v]) == Range(v)
  {
    assert [v][1..] == [] && Range(v) + [] == Range(v);
  }

  /**
   * Cutting an entry in two, anywhere but in front of the first cell, does not change what is transferred or returned
   * as long as the vector stays short enough.
   */
  lemma LayoutIsIrrelevant(v: seq<Iovec>, k: nat, at: nat, replies: seq<Reply>)
    requires k < |v| < IOV_MAX && at <= v[k].len && (k == 0 && v[0].len > 0 ==> at > 0)
    ensures Cells(SplitAt(v, k, at)) == Cells(v)
    ensures Vectored(SplitAt(v, k, at), replies) == Vectored(v, replies)
  {
    SplitKeepsCells(v, k, at);
  }

  // ----- Advancing over completed entries -----

  lemma CellsCons(v: seq<Iovec>, k: nat)
    requires k < |v|
    ensures Cells(v[k..]) == Range(v[k]) + Cells(v[k + 1..])
  {
    assert v[k..][1..] == v[k + 1..] && v[k..][0] == v[k];
  }

  lemma DropDrop(s: seq<int>, a: seq<int>, b: seq<int>, r: nat)
    requires s == a + b && |a| <= r <= |s|
    ensures s[r..] == b[r - |a|..]
  {
  }

  lemma DropPart(s: seq<int>, a: seq<int>, b: seq<int>, r: nat)
    requires s == a + b && r <= |a|
    ensures s[r..] == a[r..] + b
  {
  }

  lemma RangeRest(v: Iovec, r: nat)
    requires r <= v.len
    ensures Range(v)[r..] == Range(Iovec(v.base + r, v.len - r))
  {
  }

  /** The loop that skips completed entries. */
  method Skip(iov: array<Iovec>, first: nat, moved: nat) returns (k: nat, rem: nat)
    requires first <= iov.Length
    ensures first <= k <= iov.Length && (k < iov.Length ==> rem < iov[k].len)
    ensures |Cells(iov[..][k..])| - rem == |Cells(iov[..][first..])| - moved
    ensures moved <= |Cells(iov[..][first..])| ==> Cells(iov[..][k..])[rem..] == Cells(iov[..][first..])[moved..]
  {
    ghost var v := iov[..];
    ghost var all := Cells(v[first..]);
    rem := moved;
    k := first;
    while k < iov.Length && rem >= iov[k].len
      invariant first <= k <= iov.Length
      invariant |Cells(v[k..])| - rem == |all| - moved
      invariant moved <= |all| ==> Cells(v[k..])[rem..] == all[moved..]
    {
      CellsCons(v, k);
      if moved <= |all| { DropDrop(Cells(v[k..]), Range(v[k]), Cells(v[k + 1..]), rem); }
      rem := rem - iov[k].len;
      k := k + 1;
    }
  }

  /** Dropping a part of entry `k` in place. */
  method Shorten(iov: array<Iovec>, k: nat, rem: nat)
    requires k < iov.Length && rem < iov[k].len
    modifies iov
    ensures iov[k].len > 0
    ensures rem <= |Cells(old(iov[..])[k..])| && Cells(iov[..][k..]) == Cells(old(iov[..])[k..])[rem..]
  {
    ghost var v := iov[..];
    CellsCons(v, k);
    DropPart(Cells(v[k..]), Range(v[k]), Cells(v[k + 1..]), rem);
    RangeRest(v[k], rem);
    iov[k] := Iovec(iov[k].base + rem, iov[k].len - rem);
    assert iov[..][k + 1..] == v[k + 1..];
    CellsCons(iov[..], k);
  }

  /** What follows a partial transfer: the error branch is taken exactly if the system claims too much. */
  method Advance(iov: array<Iovec>, first: nat, moved: nat) returns (k: nat, fault: bool)
    requires first <= iov.Length
    modifies iov
    ensures first <= k <= iov.Length
    ensures fault <==> moved > |Cells(old(iov[..])[first..])|
    ensures !fault ==> Cells(iov[..][k..]) == Cells(old(iov[..])[first..])[moved..]
    ensures !fault && k < iov.Length ==> iov[k].len > 0
  {
    var rem;
    k, rem := Skip(iov, first, moved);
    if k < iov.Length { CellsCons(iov[..], k); }
    if rem > 0 && (k == iov.Length || rem > iov[k].len) {
      return k, true;
    }
    fault := false;
    if k < iov.Length {
      Shorten(iov, k, rem);
    } else {
      assert iov[..][k..] == [];
    }
  }

  /** How a transfer ends that stops as soon as the system claims too much. */
  function Ends(total: nat, pos: nat, replies: seq<Reply>): Outcome
    decreases |replies|
  {
    if pos >= total then Done(pos)
    else if replies == [] then Waiting(pos)
    else
      match replies[0]
      case Retry => Ends(total, pos, replies[1..])
      case Hard => Failed
      case Moved(n, stop) =>
        if n == 0 then Ended(pos)
        else if n > total - pos then Fault
        else if stop then Stopped(pos + n)
        else Ends(total, pos + n, replies[1..])
  }

  lemma {:induction false} EndsAsPlain(total: nat, pos: nat, replies: seq<Reply>)
    ensures Ends(total, pos, replies) == if Overruns(total, pos, replies) then Fault else Plain(total, pos, replies)
    decreases |replies|
  {
    if pos < total && replies != [] {
      match replies[0]
      case Retry => EndsAsPlain(total, pos, replies[1..]);
      case Hard =>
      case Moved(n, stop) =>
        if 0 < n <= total - pos && !stop { EndsAsPlain(total, pos + n, replies[1..]); }
    }
  }

  /** What the loop keeps: the cells that are left are the last ones, and the call will end as it was going to. */
  ghost predicate Running(all: seq<int>, rest: seq<int>, pos: nat, left: seq<Reply>, goal: Outcome) {
    pos + |rest| == |all| && all[pos..] == rest && Ends(|all|, pos, left) == goal
  }

  lemma RunningStep(all: seq<int>, rest: seq<int>, pos: nat, left: seq<Reply>, goal: Outcome)
    requires Running(all, rest, pos, left, goal) && rest != []
    ensures left == [] ==> goal == Waiting(pos)
    ensures left != [] && left[0].Retry? ==> Running(all, rest, pos, left[1..], goal)
    ensures left != [] && left[0].Hard? ==> goal == Failed
  {
  }

  lemma RunningMoves(all: seq<int>, rest: seq<int>, pos: nat, left: seq<Reply>, goal: Outcome, n: nat, stop: bool)
    requires Running(all, rest, pos, left, goal) && rest != [] && left != [] && left[0] == Moved(n, stop)
    ensures n == 0 ==> goal == Ended(pos)
    ensures n > |rest| ==> goal == Fault
    ensures 0 < n <= |rest| && stop ==> goal == Stopped(pos + n)
    ensures 0 < n <= |rest| && !stop ==> Running(all, rest[n..], pos + n, left[1..], goal)
    ensures n <= |rest| ==> all[..pos] + rest[..n] == all[..pos + n]
  {
    if n <= |rest| { assert all[pos..][n..] == all[pos + n..]; }
  }

  /** The vector is untouched, or it began with a full entry and still does. */
  ghost predicate Kept(vec: seq<Iovec>, iov: seq<Iovec>, k: nat, pos: nat) {
    || (iov == vec && k == 0 && pos == 0)
    || (vec != [] && vec[0].len > 0 && (k < |iov| ==> iov[k].len > 0))
  }

  /** What a call returns that does not enter or has left the loop. */
  lemma LoopEnds(vec: seq<Iovec>, replies: seq<Reply>, iov: seq<Iovec>, k: nat, pos: nat, left: seq<Reply>)
    requires |vec| <= IOV_MAX && k <= |iov| && Kept(vec, iov, k, pos) && (k == |iov| || iov[k].len == 0)
    requires Running(Cells(vec), Cells(iov[k..]), pos, left, Ends(|Cells(vec)|, 0, replies))
    ensures Vectored(vec, replies) == Done(pos)
  {
    EndsAsPlain(|Cells(vec)|, 0, replies);
  }

  /** Inside the loop, there are cells left and the call ends as the plain transfer. */
  lemma LoopRuns(vec: seq<Iovec>, replies: seq<Reply>, iov: seq<Iovec>, k: nat, pos: nat)
    requires |vec| <= IOV_MAX && k < |iov| && Kept(vec, iov, k, pos) && iov[k].len > 0
    ensures Cells(iov[k..]) != [] && vec != [] && vec[0].len > 0
    ensures Vectored(vec, replies) == Ends(|Cells(vec)|, 0, replies)
  {
    CellsCons(iov, k);
    EndsAsPlain(|Cells(vec)|, 0, replies);
  }

  /**
   * `atomiciov6` on a copy of the vector, given the replies of the system and of the callback. The ghost
   * result lists the cells that were moved: always a prefix of the vector's cells, each once and in order.
   */
  method Atomiciov6(vec: seq<Iovec>, replies: seq<Reply>) returns (r: Outcome, ghost moved: seq<int>)
    ensures r == Vectored(vec, replies)
    ensures moved <= Cells(vec)
    ensures r.Waiting? || r.Done? || r.Ended? || r.Stopped? ==> |moved| == r.pos
  {
    moved := [];
    if |vec| > IOV_MAX {
      return TooMany, [];
    }
    var iov := new Iovec[|vec|](i requires 0 <= i < |vec| => vec[i]);
    assert iov[..] == vec && vec[0..] == vec;
    var k, pos, left := 0, 0, replies;
    ghost var all, goal := Cells(vec), Ends(|Cells(vec)|, 0, replies);
    while k < iov.Length && iov[k].len > 0
      invariant 0 <= k <= iov.Length && 0 <= pos <= |all| && moved == all[..pos]
      invariant Kept(vec, iov[..], k, pos) && Running(all, Cells(iov[..][k..]), pos, left, goal)
      decreases |left|
    {
      ghost var rest := Cells(iov[..][k..]);
      LoopRuns(vec, replies, iov[..], k, pos);
      RunningStep(all, rest, pos, left, goal);
      if left == [] {
        return Waiting(pos), moved;
      }
      match left[0] {
        case Retry =>
        case Hard => return Failed, moved;
        case Moved(n, stop) =>
          RunningMoves(all, rest, pos, left, goal, n, stop);
          if n == 0 {
            return Ended(pos), moved;
          }
          var fault;
          k, fault := Advance(iov, k, n);
          if fault {
            return Fault, moved;
          }
          pos, moved := pos + n, moved + rest[..n];
          if stop {
            return Stopped(pos), moved;
          }
      }
      left := left[1..];
    }
    LoopEnds(vec, replies, iov[..], k, pos, left);
    r := Done(pos);
  }

  /** `atomicio6`, the transfer of one range. */
  method Atomicio6(n: nat, replies: seq<Reply>) returns (r: Outcome)
    ensures r == Plain(n, 0, replies)
  {
    var pos, j := 0, 0;
    while n > pos
      invariant 0 <= j <= |replies| && pos >= 0
      invariant Plain(n, pos, replies[j..]) == Plain(n, 0, replies)
      decreases |replies| - j
    {
      if j == |replies| {
        return Waiting(pos);
      }
      assert replies[j..][1..] == replies[j + 1..];
      match replies[j] {
        case Retry =>
        case Hard => return Failed;
        case Moved(res, stop) =>
          if res == 0 {
            return Ended(pos);
          }
          pos := pos + res;
          if stop {
            return Stopped(pos);
          }
      }
      j := j + 1;
    }
    r := Done(pos);
  }
}
