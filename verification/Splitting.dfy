/** Splitting a text at a separator character and joining the pieces again. */
module Splitting {

  /** Position of the first separator, or the length of the text. */
  function Find(c: char, s: string): (k: nat)
    ensures k <= |s|
  {
    if s == [] || s[0] == c then 0 else 1 + Find(c, s[1..])
  }

  lemma {:induction false} FindIsFirst(c: char, s: string)
    ensures c !in s[..Find(c, s)]
    ensures Find(c, s) < |s| ==> s[Find(c, s)] == c
  {
    if s != [] && s[0] != c {
      FindIsFirst(c, s[1..]);
      assert s[..Find(c, s)] == [s[0]] + s[1..][..Find(c, s[1..])];
    }
  }

  /** The pieces of a text between separators, empty ones included. */
  function Pieces(c: char, s: string): (ps: seq<string>)
    ensures ps != []
  {
    var k := Find(c, s);
    if k == |s| then [s] else [s[..k]] + Pieces(c, s[k + 1..])
  }

  function Join(c: char, ps: seq<string>): string
    requires ps != []
  {
    if |ps| == 1 then ps[0] else ps[0] + [c] + Join(c, ps[1..])
  }

  /** Pieces undoes Join: the pieces hold no separator and rejoin to the text. */
  lemma {:induction false} PiecesRejoin(c: char, s: string)
    ensures Join(c, Pieces(c, s)) == s
    ensures forall p :: p in Pieces(c, s) ==> c !in p
    decreases |s|
  {
    FindIsFirst(c, s);
    var k := Find(c, s);
    if k == |s| {
      assert s[..k] == s;
    } else {
      PiecesRejoin(c, s[k + 1..]);
      assert s == s[..k] + [c] + s[k + 1..];
      assert Pieces(c, s)[1..] == Pieces(c, s[k + 1..]);
    }
  }

  /** The first separator of a separator-free text followed by anything that starts with one. */
  lemma {:induction false} FindAfter(c: char, p: string, rest: string)
    requires c !in p
    requires rest == [] || rest[0] == c
    ensures Find(c, p + rest) == |p|
  {
    if p == [] {
      assert p + rest == rest;
    } else {
      assert (p + rest)[1..] == p[1..] + rest;
      FindAfter(c, p[1..], rest);
    }
  }

  /** Only one list of separator-free pieces rejoins to a text. */
  lemma {:induction false} PiecesUnique(c: char, ps: seq<string>)
    requires ps != []
    requires forall p :: p in ps ==> c !in p
    ensures Pieces(c, Join(c, ps)) == ps
    decreases |ps|
  {
    if |ps| == 1 {
      assert ps[0] + [] == ps[0];
      FindAfter(c, ps[0], []);
    } else {
      var rest := [c] + Join(c, ps[1..]);
      assert Join(c, ps) == ps[0] + rest;
      FindAfter(c, ps[0], rest);
      PiecesUnique(c, ps[1..]);
      assert Join(c, ps)[|ps[0]| + 1..] == Join(c, ps[1..]);
      assert ps == [ps[0]] + ps[1..];
    }
  }
}
