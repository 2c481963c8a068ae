/** The choice of a Diffie-Hellman group from the moduli file, as in dh.c. */
module ChooseDh {

  /** A group of the file: its size in bits, generator and modulus. */
  datatype Group = Group(size: int, g: nat, p: nat)

  /** A line of the file: one that does not parse, or a group. */
  datatype Line = Junk | Entry(group: Group)

  /** Parsed sizes are one more than a positive number. */
  predicate Parsed(file: seq<Line>) {
    forall i :: 0 <= i < |file| ==> file[i].Entry? ==> file[i].group.size >= 2
  }

  predicate Fits(l: Line, min: int, max: int) {
    l.Entry? && min <= l.group.size <= max
  }

  /** The sizes of the usable groups, in the order of the file. */
  function Sizes(file: seq<Line>, min: int, max: int): seq<int> {
    if file == [] then []
    else
      var front, last := Sizes(file[..|file| - 1], min, max), file[|file| - 1];
      if Fits(last, min, max) then front + [last.group.size] else front
  }

  /** Whether a size replaces the best one so far. */
  predicate Better(size: int, best: int, want: int) {
    (size > want && size < best) || (size > best && best < want)
  }

  /** The best size after looking at sizes in order. */
  function Best(sizes: seq<int>, want: int): int {
    if sizes == [] then 0
    else
      var front, last := Best(sizes[..|sizes| - 1], want), sizes[|sizes| - 1];
      if Better(last, front, want) then last else front
  }

  function Count(sizes: seq<int>, b: int): nat {
    if sizes == [] then 0 else Count(sizes[..|sizes| - 1], b) + if sizes[|sizes| - 1] == b then 1 else 0
  }

  /** Groups of one size, in order. */
  function Matching(file: seq<Line>, min: int, max: int, best: int): seq<Group> {
    if file == [] then []
    else
      var front, last := Matching(file[..|file| - 1], min, max, best), file[|file| - 1];
      if Fits(last, min, max) && last.group.size == best then front + [last.group] else front
  }

  // ----- What the best size is -----

  ghost predicate Positive(sizes: seq<int>) {
    forall i :: 0 <= i < |sizes| ==> sizes[i] > 0
  }

  /** The first size that is large enough is exactly the wanted one. */
  predicate ExactFirst(sizes: seq<int>, want: int) {
    if sizes == [] then false
    else ExactFirst(sizes[..|sizes| - 1], want) || (sizes[|sizes| - 1] == want && AllBelow(sizes[..|sizes| - 1], want))
  }

  predicate AllBelow(sizes: seq<int>, want: int) {
    forall i :: 0 <= i < |sizes| ==> sizes[i] < want
  }

  ghost predicate IsMax(b: int, sizes: seq<int>) {
    b in sizes && forall i :: 0 <= i < |sizes| ==> sizes[i] <= b
  }

  /** The smallest of the sizes strictly above the wanted one. */
  ghost predicate IsLeastAbove(b: int, sizes: seq<int>, want: int) {
    b in sizes && b > want && forall i :: 0 <= i < |sizes| ==> sizes[i] > want ==> b <= sizes[i]
  }

  /** The smallest of the sizes that are large enough. */
  ghost predicate IsLeastEnough(b: int, sizes: seq<int>, want: int) {
    b in sizes && b >= want && forall i :: 0 <= i < |sizes| ==> sizes[i] >= want ==> b <= sizes[i]
  }

  /** The choice, without the loop. */
  ghost predicate Chosen(b: int, sizes: seq<int>, want: int) {
    if sizes == [] then b == 0
    else if AllBelow(sizes, want) then IsMax(b, sizes)
    else if ExactFirst(sizes, want) then b == want
    else IsLeastAbove(b, sizes, want)
  }

  lemma {:induction false} ExactFirstOccurs(sizes: seq<int>, want: int)
    requires ExactFirst(sizes, want)
    ensures want in sizes && !AllBelow(sizes, want)
  {
    var front := sizes[..|sizes| - 1];
    if ExactFirst(front, want) {
      ExactFirstOccurs(front, want);
    }
  }

  lemma ChosenStep(front: seq<int>, last: int, want: int, b: int)
    requires want > 0 && last > 0 && Positive(front) && Chosen(b, front, want)
    ensures Chosen(if Better(last, b, want) then last else b, front + [last], want)
  {
    var sizes := front + [last];
    assert sizes[..|sizes| - 1] == front && sizes[|sizes| - 1] == last;
    if ExactFirst(front, want) { ExactFirstOccurs(front, want); }
    if AllBelow(front, want) {
      assert AllBelow(sizes, want) <==> last < want;
      assert IsMax(b, front) || front == [];
    } else {
      var i :| 0 <= i < |front| && front[i] >= want;
      assert sizes[i] >= want;
    }
  }

  /** The best size, for every order of the file. */
  lemma {:induction false} BestIsChosen(sizes: seq<int>, want: int)
    requires want > 0 && Positive(sizes)
    ensures Chosen(Best(sizes, want), sizes, want)
  {
    if sizes != [] {
      var front, last := sizes[..|sizes| - 1], sizes[|sizes| - 1];
      BestIsChosen(front, want);
      ChosenStep(front, last, want, Best(front, want));
      assert sizes == front + [last];
    }
  }

  /** A wish of zero bits or less chooses nothing. */
  lemma {:induction false} NothingWanted(sizes: seq<int>, want: int)
    requires want <= 0 && Positive(sizes)
    ensures Best(sizes, want) == 0
  {
    if sizes != [] {
      NothingWanted(sizes[..|sizes| - 1], want);
    }
  }

  /** Some size is large enough. */
  predicate SomeEnough(sizes: seq<int>, want: int) {
    !AllBelow(sizes, want)
  }

  /**
   * The best size is the smallest one that is large enough if and only if the wanted size is not there,
   * or comes before every larger one; an exact match behind a larger size is passed over.
   */
  lemma LeastEnoughIff(sizes: seq<int>, want: int)
    requires want > 0 && Positive(sizes) && SomeEnough(sizes, want)
    ensures IsLeastEnough(Best(sizes, want), sizes, want) <==> want !in sizes || ExactFirst(sizes, want)
  {
    BestIsChosen(sizes, want);
    if ExactFirst(sizes, want) { ExactFirstOccurs(sizes, want); }
  }

  lemma ExactMatchIsPassedOver()
    ensures Best([3072, 2048], 2048) == 3072 && Best([2048, 3072], 2048) == 2048
  {
    assert [3072, 2048][..1] == [3072] && [3072][..0] == [] && [2048, 3072][..1] == [2048] && [2048][..0] == [];
    assert Best([3072], 2048) == 3072 && Best([2048], 2048) == 2048;
  }

  lemma SizesWithin(file: seq<Line>, min: int, max: int)
    requires Parsed(file)
    ensures Positive(Sizes(file, min, max))
    ensures forall s :: s in Sizes(file, min, max) ==> min <= s <= max
  {
    if file != [] {
      SizesWithin(file[..|file| - 1], min, max);
    }
  }

  lemma {:induction false} CountPositive(sizes: seq<int>, b: int)
    ensures Count(sizes, b) > 0 <==> b in sizes
  {
    if sizes != [] {
      var front := sizes[..|sizes| - 1];
      CountPositive(front, b);
      assert sizes == front + [sizes[|sizes| - 1]];
    }
  }

  lemma {:induction false} MatchingIsCounted(file: seq<Line>, min: int, max: int, best: int)
    ensures |Matching(file, min, max, best)| == Count(Sizes(file, min, max), best)
  {
    if file != [] {
      var front, last := file[..|file| - 1], file[|file| - 1];
      MatchingIsCounted(front, min, max, best);
      if Fits(last, min, max) {
        var s := Sizes(file, min, max);
        assert s[..|s| - 1] == Sizes(front, min, max);
      }
    }
  }

  /**
   * A group is found exactly if the file has a usable one and at least one bit is wanted; it lies within the bounds.
   */
  lemma GroupIsFoundIff(file: seq<Line>, min: int, want: int, max: int)
    requires Parsed(file)
    ensures var sizes := Sizes(file, min, max);
            var best := Best(sizes, want);
            && (Count(sizes, best) > 0 <==> want > 0 && sizes != [])
            && (Count(sizes, best) > 0 ==> min <= best <= max)
  {
    var sizes := Sizes(file, min, max);
    SizesWithin(file, min, max);
    CountPositive(sizes, Best(sizes, want));
    if want <= 0 {
      NothingWanted(sizes, want);
    } else {
      BestIsChosen(sizes, want);
      if ExactFirst(sizes, want) { ExactFirstOccurs(sizes, want); }
    }
  }

  // ----- The two passes -----

  lemma {:induction false} NotSeenBefore(sizes: seq<int>, b: int)
    requires b !in sizes
    ensures Count(sizes, b) == 0
  {
    CountPositive(sizes, b);
  }

  /** A size that replaces the best one was not seen before. */
  lemma BetterIsNew(sizes: seq<int>, want: int, size: int)
    requires Positive(sizes) && size > 0 && Better(size, Best(sizes, want), want)
    ensures size !in sizes
  {
    if want > 0 {
      BestIsChosen(sizes, want);
      if ExactFirst(sizes, want) { ExactFirstOccurs(sizes, want); }
    } else {
      NothingWanted(sizes, want);
    }
  }

  /** The first pass of `choose_dh`. */
  method FirstPass(file: seq<Line>, min: int, want: int, max: int) returns (best: int, bestcount: nat)
    requires Parsed(file)
    ensures best == Best(Sizes(file, min, max), want)
    ensures bestcount == Count(Sizes(file, min, max), best)
  {
    best, bestcount := 0, 0;
    var i := 0;
    while i < |file|
      invariant 0 <= i <= |file|
      invariant best == Best(Sizes(file[..i], min, max), want)
      invariant bestcount == Count(Sizes(file[..i], min, max), best)
    {
      ghost var seen, more := Sizes(file[..i], min, max), Sizes(file[..i + 1], min, max);
      assert file[..i + 1][..i] == file[..i];
      var l := file[i];
      i := i + 1;
      if l.Junk? || l.group.size > max || l.group.size < min {
        continue;
      }
      var size := l.group.size;
      assert more == seen + [size] && more[..|more| - 1] == seen;
      SizesWithin(file[..i - 1], min, max);
      if (size > want && size < best) || (size > best && best < want) {
        BetterIsNew(seen, want, size);
        NotSeenBefore(seen, size);
        best := size;
        bestcount := 0;
      }
      if size == best {
        bestcount := bestcount + 1;
      }
    }
    assert file[..|file|] == file;
  }

  /** The second pass of `choose_dh`: it stops at match number `which`. */
  method SecondPass(file: seq<Line>, min: int, max: int, best: int, which: nat) returns (found: bool, group: Group)
    ensures found <==> which < |Matching(file, min, max, best)|
    ensures found ==> group == Matching(file, min, max, best)[which]
  {
    var i, linenum := 0, 0;
    group := Group(0, 0, 0);
    while i < |file|
      invariant 0 <= i <= |file| && 0 <= linenum <= which
      invariant linenum == |Matching(file[..i], min, max, best)|
    {
      assert file[..i + 1][..i] == file[..i];
      var l := file[i];
      i := i + 1;
      if l.Junk? || l.group.size > max || l.group.size < min || l.group.size != best {
        continue;
      }
      linenum := linenum + 1;
      if linenum == which + 1 {
        MatchingPrefix(file, i, min, max, best);
        return true, l.group;
      }
    }
    assert file[..|file|] == file;
    found := false;
  }

  lemma {:induction false} MatchingPrefix(file: seq<Line>, i: nat, min: int, max: int, best: int)
    requires i <= |file|
    ensures Matching(file[..i], min, max, best) <= Matching(file, min, max, best)
    decreases |file|
  {
    if i == |file| {
      assert file[..i] == file;
    } else {
      var front := file[..|file| - 1];
      MatchingPrefix(front, i, min, max, best);
      assert front[..i] == file[..i];
    }
  }

  datatype Choice = Fallback | Chose(group: Group) | Disappeared

  /** `choose_dh` on an unchanging file; `random` stands for the random number below the count. */
  method Choose(file: seq<Line>, min: int, want: int, max: int, random: nat) returns (r: Choice)
    requires Parsed(file)
    ensures var sizes := Sizes(file, min, max);
            var matching := Matching(file, min, max, Best(sizes, want));
            r == if want > 0 && sizes != [] && matching != [] then Chose(matching[random % |matching|]) else Fallback
    ensures r.Fallback? <==> want <= 0 || Sizes(file, min, max) == []
  {
    var best, bestcount := FirstPass(file, min, want, max);
    GroupIsFoundIff(file, min, want, max);
    MatchingIsCounted(file, min, max, best);
    if bestcount == 0 {
      return Fallback;
    }
    var which := random % bestcount;
    var found, group := SecondPass(file, min, max, best, which);
    if !found {
      return Disappeared;
    }
    r := Chose(group);
  }
}
