/** The argv and envp arrays of execve (src/child_mem.c). */
module ChildArgv {
  import opened Basics
  import opened BoundedText
  import opened Bytes
  import opened ChildMemory
  import opened ChildStrings
  import opened CStrings
  import opened Escape
  import opened Options

  const MAX_ARGV_ITEMS := 32

  /** The pointer at position i of the array, if it can be read. */
  function Pointer(mem: Memory, addr: nat, i: nat): Option<nat> {
    if CanPeek(mem, addr, i * WORD) then Some(FromLE(Peek(mem, addr, i * WORD))) else None
  }

  /** The texts of the strings from position i on: up to a NULL, an unreadable pointer or position n. */
  function Items(mem: Memory, addr: nat, maxLen: nat, i: nat, n: nat): seq<string>
    decreases n - i
  {
    if i >= n then []
    else
      var p := Pointer(mem, addr, i);
      if p.None? || p.value == 0 then []
      else [StringText(mem, p.value, maxLen, STR_ARG_BUF_LEN)] + Items(mem, addr, maxLen, i + 1, n)
  }

  // ----- What the guards let through -----

  /** A piece is stored whole, and only if something more still finds room after it. */
  function Put(text: string, piece: string, size: nat): string {
    if |text| + |piece| < size then text + piece else text
  }

  function Comma(text: string, first: bool, size: nat): string {
    if first then text else Put(text, ", ", size)
  }

  function Place(text: string, items: seq<string>, first: bool, size: nat): string
    decreases |items|
  {
    if items == [] then text
    else Place(Put(Comma(text, first, size), items[0], size), items[1..], false, size)
  }

  function Close(text: string, truncated: bool, size: nat): string {
    var t := if truncated then Put(text, ", ...", size) else text;
    if |t| < size then t + "]" else t
  }

  /** What a buffer of the given size holds, up to its NUL. */
  function ArgvText(items: seq<string>, size: nat): (text: string)
    requires size >= 1
    ensures |text| < size
  {
    var t := Close(Place("[", items, true, size), |items| == MAX_ARGV_ITEMS, size);
    if |t| < size then t else t[..size - 1]
  }

  // ----- Against the whole list -----

  function Listed(items: seq<string>, first: bool): string {
    if items == [] then "" else (if first then "" else ", ") + (items[0] + Listed(items[1..], false))
  }

  /** The list with unbounded room. */
  function WholeList(items: seq<string>): string {
    "[" + (Listed(items, true) + ((if |items| == MAX_ARGV_ITEMS then ", ..." else "") + "]"))
  }

  lemma {:induction false} EverythingPlaced(text: string, items: seq<string>, first: bool, size: nat)
    requires |text| + |Listed(items, first)| < size
    ensures Place(text, items, first, size) == text + Listed(items, first)
    decreases |items|
  {
    if items == [] {
      assert text + "" == text;
    } else {
      var comma, rest := if first then "" else ", ", Listed(items[1..], false);
      assert Comma(text, first, size) == text + comma;
      assert Put(text + comma, items[0], size) == (text + comma) + items[0];
      EverythingPlaced((text + comma) + items[0], items[1..], false, size);
      Regroup(text + comma, items[0], rest);
      Regroup(text, comma, items[0] + rest);
    }
  }

  /** The list is shown whole exactly when it fits with its NUL. */
  lemma {:induction false} WholeIffFits(items: seq<string>, size: nat)
    requires size >= 1
    ensures ArgvText(items, size) == WholeList(items) <==> |WholeList(items)| < size
  {
    if |WholeList(items)| < size {
      var dots := if |items| == MAX_ARGV_ITEMS then ", ..." else "";
      var placed := "[" + Listed(items, true);
      EverythingPlaced("[", items, true, size);
      Regroup("[", Listed(items, true), dots + "]");
      Regroup(placed, dots, "]");
      assert placed + "" == placed;
    }
  }

  /** Otherwise an item may be missing from the middle, with nothing but its comma to show for it. */
  lemma {:induction false} MiddleVanishes(x: string, y: string, z: string, size: nat)
    requires |x| + |z| + 6 < size <= |x| + |y| + 3
    ensures ArgvText([x, y, z], size) == "[" + x + ", " + ", " + z + "]"
  {
    assert [x, y, z][1..] == [y, z] && [y, z][1..] == [z] && [z][1..] == [];
    var one := "[" + x + ", ";
    var two := one + ", " + z;
    assert Place(two, [], false, size) == two;
    assert Place(one, [z], false, size) == two;
    assert Place("[" + x, [y, z], false, size) == Place(one, [z], false, size);
    assert Place("[", [x, y, z], true, size) == two;
  }

  /** A string that does not fit its own buffer of 1024 characters is such an item. */
  lemma {:induction false} LongMiddleVanishes(x: string, bs: seq<byte>, more: bool, z: string)
    requires Fit(bs, 1, STR_ARG_BUF_LEN) < |bs| && 1 <= |x| && |x| + |z| + 6 < STR_ARG_BUF_LEN
    ensures ArgvText([x, Quoted(bs, more, STR_ARG_BUF_LEN), z], STR_ARG_BUF_LEN) == "[" + x + ", " + ", " + z + "]"
  {
    FitGrows(bs, Fit(bs, 1, STR_ARG_BUF_LEN), 1, STR_ARG_BUF_LEN);
    MiddleVanishes(x, Quoted(bs, more, STR_ARG_BUF_LEN), z, STR_ARG_BUF_LEN);
  }

  // ----- The array in memory -----

  /** Memory holds these pointers one after the other, none of them NULL, and then a NULL. */
  ghost predicate HoldsPointers(mem: Memory, addr: nat, ps: seq<nat>) {
    && (forall i :: 0 <= i < |ps| ==> 0 < ps[i] < ADDRESS_SPACE)
    && (forall i :: 0 <= i < |ps| ==> HoldsWord(mem, addr, i, ps[i]))
    && HoldsWord(mem, addr, |ps|, 0)
  }

  /** Position i of the array holds p, least significant byte first. */
  ghost predicate HoldsWord(mem: Memory, addr: nat, i: nat, p: nat) {
    CanPeek(mem, addr, i * WORD) && Peek(mem, addr, i * WORD) == ToLE(p, 8)
  }

  lemma {:induction false} PointerReadBack(mem: Memory, addr: nat, ps: seq<nat>, i: nat)
    requires HoldsPointers(mem, addr, ps) && i <= |ps|
    ensures Pointer(mem, addr, i) == Some(if i < |ps| then ps[i] else 0)
  {
    var p := if i < |ps| then ps[i] else 0;
    assert HoldsWord(mem, addr, i, p);
    WideEnough();
    LERoundTrip(p, 8);
  }

  /** The strings that the pointers point to, as read_child_string shows them. */
  function StringsAt(mem: Memory, ps: seq<nat>, maxLen: nat): (ts: seq<string>)
    ensures |ts| == |ps| && forall i :: 0 <= i < |ps| ==> ts[i] == StringText(mem, ps[i], maxLen, STR_ARG_BUF_LEN)
  {
    seq(|ps|, i requires 0 <= i < |ps| => StringText(mem, ps[i], maxLen, STR_ARG_BUF_LEN))
  }

  lemma {:induction false} ItemsFrom(mem: Memory, addr: nat, ps: seq<nat>, maxLen: nat, i: nat, n: nat, ts: seq<string>)
    requires HoldsPointers(mem, addr, ps) && i <= n && i <= |ps| && ts == StringsAt(mem, ps, maxLen)
    ensures Items(mem, addr, maxLen, i, n) == ts[i..Min(|ps|, n)]
    decreases n - i
  {
    PointerReadBack(mem, addr, ps, i);
    if i == Min(|ps|, n) {
      ItemsEnd(mem, addr, maxLen, i, n);
    } else {
      ItemsFrom(mem, addr, ps, maxLen, i + 1, n, ts);
      ItemsCons(mem, addr, maxLen, i, n, ps[i]);
      FrontOfSlice(ts, i, Min(|ps|, n));
    }
  }

  lemma {:induction false} FrontOfSlice<T>(ts: seq<T>, i: nat, m: nat)
    requires i < m <= |ts|
    ensures ts[i..m] == [ts[i]] + ts[i + 1..m]
  {
  }

  lemma {:induction false} ItemsEnd(mem: Memory, addr: nat, maxLen: nat, i: nat, n: nat)
    requires i >= n || Pointer(mem, addr, i) == Some(0)
    ensures Items(mem, addr, maxLen, i, n) == []
  {
  }

  lemma {:induction false} ItemsCons(mem: Memory, addr: nat, maxLen: nat, i: nat, n: nat, p: nat)
    requires i < n && Pointer(mem, addr, i) == Some(p) && p != 0
    ensures Items(mem, addr, maxLen, i, n) ==
            [StringText(mem, p, maxLen, STR_ARG_BUF_LEN)] + Items(mem, addr, maxLen, i + 1, n)
  {
  }

  /** The items of an array in memory are the strings of its first 32 pointers. */
  lemma {:induction false} ItemsOfArray(mem: Memory, addr: nat, ps: seq<nat>, maxLen: nat)
    requires HoldsPointers(mem, addr, ps)
    ensures Items(mem, addr, maxLen, 0, MAX_ARGV_ITEMS) == StringsAt(mem, ps, maxLen)[..Min(|ps|, 32)]
  {
    ItemsFrom(mem, addr, ps, maxLen, 0, MAX_ARGV_ITEMS, StringsAt(mem, ps, maxLen));
  }

  /** At which positions a pointer is NULL or cannot be read. */
  function Ends(mem: Memory, addr: nat): nat -> bool {
    (i: nat) => Pointer(mem, addr, i) == None || Pointer(mem, addr, i) == Some(0)
  }

  /** How many pointers there are from position i on, before position n or the end of the array. */
  function Pointers(ends: nat -> bool, i: nat, n: nat): nat
    decreases n - i
  {
    if i >= n || ends(i) then 0 else 1 + Pointers(ends, i + 1, n)
  }

  /** That number is the first position, from i on, where the array ends, if there is one before n. */
  lemma {:induction false} PointersEnd(ends: nat -> bool, i: nat, n: nat)
    requires i <= n
    ensures var c := Pointers(ends, i, n);
            c <= n - i && (c < n - i ==> ends(i + c)) && forall k :: i <= k < i + c ==> !ends(k)
    decreases n - i
  {
    if i < n && !ends(i) {
      PointersEnd(ends, i + 1, n);
    }
  }

  /** The items are those before the first pointer that is NULL or cannot be read. */
  lemma {:induction false} ItemsWalked(mem: Memory, addr: nat, maxLen: nat, i: nat, n: nat)
    ensures |Items(mem, addr, maxLen, i, n)| == Pointers(Ends(mem, addr), i, n)
    decreases n - i
  {
    if i < n {
      ItemsWalked(mem, addr, maxLen, i + 1, n);
    }
  }

  /** The whole list is its items with commas between them, brackets around, and dots after the 32nd. */
  lemma {:induction false} ListedJoined(items: seq<string>, first: bool)
    ensures Listed(items, first) == (if first || items == [] then "" else ", ") + Joined(items)
    decreases |items|
  {
    if items != [] {
      var rest := items[1..];
      ListedJoined(rest, false);
      assert items[0] + Listed(rest, false) == Joined(items) by {
        if rest == [] {
          assert items[0] + "" == items[0];
        }
      }
      assert first ==> "" + Joined(items) == Joined(items);
    }
  }

  /** An array in memory is shown as the list of its first 32 strings exactly when that fits. */
  lemma {:induction false} ArrayShownIff(mem: Memory, addr: nat, ps: seq<nat>, maxLen: nat, size: nat)
    requires HoldsPointers(mem, addr, ps) && size >= 1
    ensures var ts := StringsAt(mem, ps, maxLen)[..Min(|ps|, 32)];
            var list := "[" + (Joined(ts) + ((if |ps| >= 32 then ", ..." else "") + "]"));
            ArgvText(Items(mem, addr, maxLen, 0, MAX_ARGV_ITEMS), size) == list <==> |list| < size
  {
    var ts := StringsAt(mem, ps, maxLen)[..Min(|ps|, 32)];
    ItemsOfArray(mem, addr, ps, maxLen);
    ListedJoined(ts, true);
    assert "" + Joined(ts) == Joined(ts);
    WholeIffFits(ts, size);
  }

  // ----- The loop -----

  /** Stores a piece if it leaves room for more. */
  method PutPiece(out: array<char>, oi0: nat, piece: string, ghost text: string) returns (oi: nat)
    requires oi0 <= out.Length && out[..oi0] == text
    modifies out
    ensures oi <= out.Length && out[..oi] == Put(text, piece, out.Length)
  {
    oi := oi0;
    if oi + |piece| < out.Length {
      Store(out, oi, piece);
      oi := oi + |piece|;
    }
  }

  method PutItem(out: array<char>, oi0: nat, item: string, first: bool, ghost text: string) returns (oi: nat)
    requires oi0 <= out.Length && out[..oi0] == text
    modifies out
    ensures oi <= out.Length && out[..oi] == Put(Comma(text, first, out.Length), item, out.Length)
  {
    oi := oi0;
    if !first {
      oi := PutPiece(out, oi, ", ", text);
    }
    oi := PutPiece(out, oi, item, Comma(text, first, out.Length));
  }

  /** The text of the string at position i, unless the array ends there. */
  method NextItem(mem: Memory, addr: nat, maxLen: nat, i: nat, ghost n: nat) returns (item: Option<string>)
    requires i < n
    ensures Items(mem, addr, maxLen, i, n) ==
            if item.None? then [] else [item.value] + Items(mem, addr, maxLen, i + 1, n)
  {
    if !CanPeek(mem, addr, i * WORD) {
      return None;
    }
    var p := FromLE(Peek(mem, addr, i * WORD));
    if p == 0 {
      return None;
    }
    var buf := new char[STR_ARG_BUF_LEN];
    var _ := ReadChildString(mem, p, maxLen, buf);
    StringTextHasNoNul(mem, p, maxLen, STR_ARG_BUF_LEN);
    var s := CString(buf, StringText(mem, p, maxLen, STR_ARG_BUF_LEN));
    item := Some(s);
  }

  lemma {:induction false} PlaceStep(text: string, item: string, rest: seq<string>, first: bool, size: nat)
    ensures Place(text, [item] + rest, first, size) ==
            Place(Put(Comma(text, first, size), item, size), rest, false, size)
  {
    assert ([item] + rest)[1..] == rest;
  }

  /** One turn of the loop: stores the item at position i, or sees that the array ends there. */
  method PlaceItem(mem: Memory, addr: nat, maxLen: nat, i: nat, out: array<char>, oi0: nat,
                   ghost n: nat, ghost items: seq<string>, ghost text: string)
    returns (ok: bool, oi: nat, ghost rest: seq<string>)
    requires i < n && items == Items(mem, addr, maxLen, i, n)
    requires oi0 <= out.Length && out[..oi0] == text
    modifies out
    ensures oi <= out.Length
    ensures ok ==> rest == Items(mem, addr, maxLen, i + 1, n) && |items| == 1 + |rest|
    ensures ok ==> Place(text, items, i == 0, out.Length) == Place(out[..oi], rest, false, out.Length)
    ensures !ok ==> items == [] == rest && out[..oi] == text
  {
    var item := NextItem(mem, addr, maxLen, i, n);
    if item.None? {
      ok, oi, rest := false, oi0, [];
    } else {
      ok := true;
      rest := Items(mem, addr, maxLen, i + 1, n);
      oi := PutItem(out, oi0, item.value, i == 0, text);
      PlaceStep(text, item.value, rest, i == 0, out.Length);
    }
  }

  lemma {:induction false} NothingLeft(mem: Memory, addr: nat, maxLen: nat, i: nat, n: nat)
    requires i >= n
    ensures Items(mem, addr, maxLen, i, n) == []
  {
  }

  /** The loop over the array. */
  method PlaceItems(mem: Memory, addr: nat, maxLen: nat, n: nat, out: array<char>, ghost items: seq<string>)
    returns (oi: nat, count: nat)
    requires out.Length >= 1 && out[..1] == "[" && items == Items(mem, addr, maxLen, 0, n)
    modifies out
    ensures oi <= out.Length && out[..oi] == Place("[", items, true, out.Length) && count == |items|
  {
    oi, count := 1, 0;
    ghost var rest, text := items, "[";
    ghost var placed := Place(text, items, true, out.Length);
    var ok := true;
    while ok && count < n
      invariant oi <= out.Length && out[..oi] == text && count <= n && |items| == count + |rest|
      invariant rest == if ok then Items(mem, addr, maxLen, count, n) else []
      invariant placed == Place(text, rest, count == 0, out.Length)
    {
      ok, oi, rest := PlaceItem(mem, addr, maxLen, count, out, oi, n, rest, text);
      text := out[..oi];
      count := if ok then count + 1 else count;
    }
    if ok {
      NothingLeft(mem, addr, maxLen, count, n);
    }
    assert Place(text, [], count == 0, out.Length) == text;
  }

  /** read_child_argv. The result says whether every write had a place in the buffer. */
  method ReadChildArgv(mem: Memory, addr: nat, maxLen: nat, out: array<char>) returns (inside: bool)
    modifies out
    ensures inside <==> out.Length > 0 || addr == 0
    ensures out.Length > 0 ==>
              HoldsText(out[..], if addr == 0 then Clip("NULL", out.Length)
                                 else ArgvText(Items(mem, addr, maxLen, 0, MAX_ARGV_ITEMS), out.Length))
  {
    inside := true;
    if addr == 0 {
      var _ := Snprintf(out, 0, "NULL");
      assert out[0..] == out[..];
      PrintedHolds(out[..], "NULL");
      return;
    }
    var size := out.Length;
    if size == 0 {
      return false;
    }
    out[0] := '[';
    ghost var items := Items(mem, addr, maxLen, 0, MAX_ARGV_ITEMS);
    var oi, count := PlaceItems(mem, addr, maxLen, MAX_ARGV_ITEMS, out, items);
    ghost var text := Place("[", items, true, size);
    if count == MAX_ARGV_ITEMS {
      oi := PutPiece(out, oi, ", ...", text);
    }
    text := out[..oi];
    if oi < size {
      Store(out, oi, "]");
      oi := oi + 1;
      text := text + "]";
    }
    Terminate(out, oi, text);
  }

  /** The NUL: after the text, or over its last character. */
  method Terminate(out: array<char>, oi: nat, ghost text: string)
    requires 1 <= out.Length && oi <= out.Length && out[..oi] == text
    modifies out
    ensures HoldsText(out[..], if |text| < out.Length then text else text[..out.Length - 1])
  {
    if oi < out.Length {
      out[oi] := '\0';
      assert out[..oi] == text;
    } else {
      out[out.Length - 1] := '\0';
      assert out[..out.Length - 1] == text[..out.Length - 1];
    }
  }
}
