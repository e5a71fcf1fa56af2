/** Small facts shared by the modules. */
module Basics {
  function Min(a: nat, b: nat): nat { if a < b then a else b }

  lemma {:induction false} Regroup<T>(a: seq<T>, b: seq<T>, c: seq<T>)
    ensures (a + b) + c == a + (b + c)
  {
  }

  /** Texts with commas between them. */
  function Joined(ts: seq<string>): string {
    if ts == [] then "" else if |ts| == 1 then ts[0] else ts[0] + (", " + Joined(ts[1..]))
  }
}
