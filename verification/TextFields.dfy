/** Small readers of labelled fields, for texts of the form {a=1, b=2, c=3}. */
module TextFields {
  import opened Options
  import opened Splitting

  /** Position of the last occurrence of a character, or the length. */
  function FindLast(c: char, s: string): (k: nat)
    ensures k <= |s|
  {
    if c !in s then |s| else if s[|s| - 1] == c then |s| - 1 else FindLast(c, s[..|s| - 1])
  }

  lemma {:induction false} FindLastIs(p: string, c: char, rest: string)
    requires c !in rest
    ensures FindLast(c, p + [c] + rest) == |p|
    decreases |rest|
  {
    var s := p + [c] + rest;
    assert s[|p|] == c;
    if rest != [] {
      assert s[..|s| - 1] == p + [c] + rest[..|rest| - 1];
      assert s[|s| - 1] == rest[|rest| - 1];
      FindLastIs(p, c, rest[..|rest| - 1]);
    }
  }

  // ----- A value up to the next comma -----

  /** The value after a label, up to the next comma, and what follows it. */
  function Field(t: string, tag: string): Option<(string, string)> {
    if tag <= t then
      var u := t[|tag|..];
      Some((u[..Find(',', u)], u[Find(',', u)..]))
    else None
  }

  lemma {:induction false} FieldOf(tag: string, value: string, rest: string)
    requires ',' !in value && rest != [] && rest[0] == ','
    ensures Field(tag + (value + rest), tag) == Some((value, rest))
  {
    FindAfter(',', value, rest);
    assert (tag + (value + rest))[|tag|..] == value + rest;
    assert (value + rest)[..|value|] == value && (value + rest)[|value|..] == rest;
  }

  // ----- A value up to the last occurrence of a character -----

  function Strip(t: string, tag: string): Option<string> {
    if tag <= t then Some(t[|tag|..]) else None
  }

  lemma {:induction false} StripOf(tag: string, rest: string)
    ensures Strip(tag + rest, tag) == Some(rest)
  {
  }

  function SplitLast(t: string, c: char): (string, string) { (t[..FindLast(c, t)], t[FindLast(c, t)..]) }

  lemma {:induction false} SplitLastOf(p: string, c: char, rest: string)
    requires rest != [] && rest[0] == c && c !in rest[1..]
    ensures SplitLast(p + rest, c) == (p, rest)
  {
    assert p + rest == p + [c] + rest[1..];
    FindLastIs(p, c, rest[1..]);
    assert (p + rest)[..|p|] == p && (p + rest)[|p|..] == rest;
  }

  function Unbrace(t: string): Option<string> {
    if t != [] && t[|t| - 1] == '}' then Some(t[..|t| - 1]) else None
  }

  lemma {:induction false} UnbraceOf(t: string)
    ensures Unbrace(t + "}") == Some(t)
  {
  }

  /** Two values: one between a label and the last occurrence of c, where the second label begins,
      and one from there to the closing brace. */
  function Enclosed(t: string, before: string, c: char, after: string): Option<(string, string)> {
    var u := Strip(t, before);
    if u.None? then None
    else
      var s := SplitLast(u.value, c);
      var v := Strip(s.1, after);
      if v.None? then None
      else
        var x := Unbrace(v.value);
        if x.None? then None else Some((s.0, x.value))
  }

  lemma {:induction false} EnclosedOf(before: string, name: string, c: char, after: string, kind: string)
    requires after != [] && after[0] == c && c !in after[1..] && c !in kind && c != '}'
    ensures Enclosed(before + (name + (after + (kind + "}"))), before, c, after) == Some((name, kind))
  {
    var end := after + (kind + "}");
    StripOf(before, name + end);
    assert end[1..] == after[1..] + (kind + "}");
    SplitLastOf(name, c, end);
    StripOf(after, kind + "}");
    UnbraceOf(kind);
  }
}
