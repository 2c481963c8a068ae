/** A value that may be missing. */
module Options {
  datatype Option<+T> = None | Some(value: T)
}

/** Comma-separated lists of names, as proposals and device lists have them. */
module NameLists {
  import opened Bytes

  type Name = seq<byte>

  const COMMA: byte := 0x2c

  /** Length of the text before the first comma. */
  function CommaAt(s: Name): (k: nat)
    ensures k <= |s| && COMMA !in s[..k] && (k < |s| ==> s[k] == COMMA)
  {
    if s == [] || s[0] == COMMA then 0
    else
      var k := 1 + CommaAt(s[1..]);
      assert s[..k] == [s[0]] + s[1..][..k - 1];
      k
  }

  /** The comma-separated names of a list, up to the first empty one. */
  function Names(s: Name): seq<Name> {
    var k := CommaAt(s);
    if k == 0 then [] else [s[..k]] + if k < |s| then Names(s[k + 1..]) else []
  }

  /** The list with these names. */
  function Join(names: seq<Name>): Name {
    if names == [] then [] else if |names| == 1 then names[0] else names[0] + [COMMA] + Join(names[1..])
  }

  /** Names that a list can hold. */
  predicate Listable(names: seq<Name>) {
    forall i :: 0 <= i < |names| ==> names[i] != [] && COMMA !in names[i]
  }

  /** A name in front of a comma is split off; an empty one ends the list. */
  lemma NamesCons(n: Name, tail: Name)
    requires COMMA !in n
    ensures Names(n + [COMMA] + tail) == if n == [] then [] else [n] + Names(tail)
    ensures Names(n) == if n == [] then [] else [n]
  {
    var s := n + [COMMA] + tail;
    assert s[|n|] == COMMA && s[..|n|] == n && s[|n| + 1..] == tail;
    assert CommaAt(s) == |n|;
    assert n[..|n|] == n;
  }

  /** Splitting a list at its commas gives back the names it was joined from. */
  lemma {:induction false} NamesOfJoin(names: seq<Name>)
    requires Listable(names)
    ensures Names(Join(names)) == names
  {
    if names != [] {
      NamesOfJoin(names[1..]);
      NamesCons(names[0], Join(names[1..]));
      assert names == [names[0]] + names[1..];
    }
  }
}
