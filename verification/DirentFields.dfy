/** A shown directory record can be read back field by field, whatever bytes its name holds. */
module DirentFields {
  import opened Basics
  import opened Bytes
  import opened ChildMemory
  import opened DirentList
  import opened Dirents
  import opened Options
  import opened TextFields

  /** The fields of a shown record. */
  datatype Fields = Fields(ino: nat, off: int, reclen: nat, name: string, kind: string)

  function ReadRecord(t: string): Option<Fields> {
    var a := Field(t, "{d_ino=");
    if a.None? then None
    else
      var b := Field(a.value.1, ", d_off=");
      if b.None? then None
      else
        var c := Field(b.value.1, ", d_reclen=");
        if c.None? then None
        else
          var d := Enclosed(c.value.1, ", d_name=\"", '"', "\", d_type=");
          if d.None? || !IsDecimal(a.value.0) || ParseSigned(b.value.0).None? || !IsDecimal(c.value.0) then None
          else Some(Fields(ParseDecimal(a.value.0), ParseSigned(b.value.0).value, ParseDecimal(c.value.0),
                          d.value.0, d.value.1))
  }

  // ----- The text of a record, regrouped -----

  function TypePart(kind: byte): string { "\", d_type=" + (TypeName(kind) + "}") }

  function NamePart(e: Dirent): string { ", d_name=\"" + (Chars(e.name) + TypePart(e.kind)) }

  function LengthPart(e: Dirent): string { ", d_reclen=" + (Decimal(e.reclen) + NamePart(e)) }

  function OffPart(e: Dirent): string { ", d_off=" + (SignedDecimal(e.off) + LengthPart(e)) }

  lemma {:induction false} Regroup5<T>(a: seq<T>, b: seq<T>, c: seq<T>, d: seq<T>, e: seq<T>)
    ensures (((a + b) + c) + d) + e == a + (b + (c + (d + e)))
  {
    Regroup((a + b) + c, d, e);
    Regroup(a + b, c, d + e);
    Regroup(a, b, c + (d + e));
  }

  lemma {:induction false} RecordParts(e: Dirent)
    ensures DirentText(e, true) == "{d_ino=" + (Decimal(e.ino) + OffPart(e))
  {
    var a, b, c := Decimal(e.ino), SignedDecimal(e.off), Decimal(e.reclen);
    var head := "" + "{d_ino=" + a + ", d_off=" + b;
    var tail := head + ", d_reclen=" + c + ", d_name=\"" + Chars(e.name);
    assert DirentText(e, true) == tail + "\", d_type=" + TypeName(e.kind) + "}";
    Regroup(tail + "\", d_type=", TypeName(e.kind), "}");
    Regroup(tail, "\", d_type=", TypeName(e.kind) + "}");
    assert DirentText(e, true) == tail + TypePart(e.kind);
    Regroup5(head, ", d_reclen=", c, ", d_name=\"", Chars(e.name));
    Regroup5(head + ", d_reclen=", c, ", d_name=\"", Chars(e.name), TypePart(e.kind));
    Regroup(head, ", d_reclen=", c + NamePart(e));
    assert DirentText(e, true) == head + LengthPart(e);
    assert "" + "{d_ino=" == "{d_ino=";
    Regroup5("{d_ino=", a, ", d_off=", b, LengthPart(e));
  }

  lemma {:induction false} PlainTypeName(kind: byte)
    ensures '"' !in TypeName(kind)
  {
  }

  lemma {:induction false} NoComma(n: nat)
    ensures ',' !in Decimal(n)
  {
    DecimalRoundTrip(n);
  }

  lemma {:induction false} InoField(e: Dirent)
    ensures Field(DirentText(e, true), "{d_ino=") == Some((Decimal(e.ino), OffPart(e)))
  {
    RecordParts(e);
    NoComma(e.ino);
    FieldOf("{d_ino=", Decimal(e.ino), OffPart(e));
  }

  lemma {:induction false} OffField(e: Dirent)
    ensures Field(OffPart(e), ", d_off=") == Some((SignedDecimal(e.off), LengthPart(e)))
  {
    SignedRoundTrip(e.off);
    FieldOf(", d_off=", SignedDecimal(e.off), LengthPart(e));
  }

  lemma {:induction false} LengthField(e: Dirent)
    ensures Field(LengthPart(e), ", d_reclen=") == Some((Decimal(e.reclen), NamePart(e)))
  {
    NoComma(e.reclen);
    FieldOf(", d_reclen=", Decimal(e.reclen), NamePart(e));
  }

  lemma {:induction false} NameField(e: Dirent)
    ensures Enclosed(NamePart(e), ", d_name=\"", '"', "\", d_type=") == Some((Chars(e.name), TypeName(e.kind)))
  {
    PlainTypeName(e.kind);
    assert '"' !in "\", d_type="[1..];
    EnclosedOf(", d_name=\"", Chars(e.name), '"', "\", d_type=", TypeName(e.kind));
  }

  lemma {:induction false} Numbers(e: Dirent)
    ensures IsDecimal(Decimal(e.ino)) && ParseDecimal(Decimal(e.ino)) == e.ino
    ensures ParseSigned(SignedDecimal(e.off)) == Some(e.off)
    ensures IsDecimal(Decimal(e.reclen)) && ParseDecimal(Decimal(e.reclen)) == e.reclen
  {
    DecimalRoundTrip(e.ino);
    SignedRoundTrip(e.off);
    DecimalRoundTrip(e.reclen);
  }

  /** Every field of every record is shown under its own label and can be read back. */
  lemma {:induction false} RecordReadBack(e: Dirent)
    ensures ReadRecord(DirentText(e, true)) == Some(Fields(e.ino, e.off, e.reclen, Chars(e.name), TypeName(e.kind)))
  {
    InoField(e);
    OffField(e);
    LengthField(e);
    NameField(e);
    Numbers(e);
  }

  /** The name is shown byte for byte. */
  lemma {:induction false} NameByByte(e: Dirent)
    ensures |Chars(e.name)| == |e.name| && forall i :: 0 <= i < |e.name| ==> Chars(e.name)[i] == e.name[i] as char
  {
  }

  /** The d_type that a type name stands for. */
  function KindOf(name: string): Option<byte> {
    match name
    case "DT_FIFO" => Some(1)
    case "DT_CHR" => Some(2)
    case "DT_DIR" => Some(4)
    case "DT_BLK" => Some(6)
    case "DT_REG" => Some(8)
    case "DT_LNK" => Some(10)
    case "DT_SOCK" => Some(12)
    case _ => None
  }

  /** A known d_type can be read back from its name; every other one is DT_UNKNOWN. */
  lemma {:induction false} TypeReadBack(kind: byte)
    ensures KindOf(TypeName(kind)) == if kind in {1, 2, 4, 6, 8, 10, 12} then Some(kind) else None
    ensures kind !in {1, 2, 4, 6, 8, 10, 12} ==> TypeName(kind) == "DT_UNKNOWN"
  {
  }

  // ----- The list -----

  function Texts(es: seq<Dirent>): (ts: seq<string>)
    ensures |ts| == |es| && forall i :: 0 <= i < |es| ==> ts[i] == DirentText(es[i], true)
  {
    seq(|es|, i requires 0 <= i < |es| => DirentText(es[i], true))
  }

  lemma {:induction false} LaterRecord(e: Dirent)
    ensures DirentText(e, false) == ", " + DirentText(e, true)
  {
    var a, b, c := Decimal(e.ino), SignedDecimal(e.off), Decimal(e.reclen);
    LaterParts(", ", a, b, c, Chars(e.name), TypeName(e.kind));
    LaterParts("", a, b, c, Chars(e.name), TypeName(e.kind));
  }

  lemma {:induction false} LaterParts(first: string, a: string, b: string, c: string, name: string, kind: string)
    ensures first + "{d_ino=" + a + ", d_off=" + b + ", d_reclen=" + c
            + ", d_name=\"" + name + "\", d_type=" + kind + "}" ==
            first + ("{d_ino=" + a + ", d_off=" + b + ", d_reclen=" + c
                     + ", d_name=\"" + name + "\", d_type=" + kind + "}")
  {
    Regroup5(first, "{d_ino=", a, ", d_off=", b);
    var head := "{d_ino=" + a + ", d_off=" + b;
    Regroup5("{d_ino=", a, ", d_off=", b, []);
    assert "{d_ino=" + (a + (", d_off=" + b)) == head;
    Regroup5(first, head, ", d_reclen=", c, ", d_name=\"");
    var mid := head + ", d_reclen=" + c + ", d_name=\"";
    assert head + (", d_reclen=" + (c + ", d_name=\"")) == mid;
    Regroup5(first, mid, name, "\", d_type=", kind);
    var most := mid + name + "\", d_type=" + kind;
    assert mid + (name + ("\", d_type=" + kind)) == most;
    Regroup(first, most, "}");
  }

  /** All but the first record of a list follow a comma. */
  lemma {:induction false} EntriesJoined(es: seq<Dirent>, first: bool)
    ensures EntriesText(DirentText, es, first) == (if first || es == [] then "" else ", ") + Joined(Texts(es))
    decreases |es|
  {
    if es != [] {
      var ts, rest := Texts(es), es[1..];
      EntriesJoined(rest, false);
      assert ts[1..] == Texts(rest);
      LaterRecord(es[0]);
      var tail := (if rest == [] then "" else ", ") + Joined(Texts(rest));
      assert Joined(ts) == ts[0] + tail by {
        if rest == [] {
          assert ts[0] + "" == ts[0];
        }
      }
      if first {
        assert "" + Joined(ts) == Joined(ts);
      } else {
        Regroup(", ", ts[0], tail);
      }
    }
  }

  lemma {:induction false} JoinedMore(ts: seq<string>, t: string)
    ensures Joined(ts + [t]) == if ts == [] then t else Joined(ts) + (", " + t)
  {
    if ts != [] {
      assert (ts + [t])[1..] == ts[1..] + [t];
      JoinedMore(ts[1..], t);
      if |ts| > 1 {
        Regroup(", ", Joined(ts[1..]), ", " + t);
        Regroup(ts[0], ", " + Joined(ts[1..]), ", " + t);
      }
    }
  }

  lemma {:induction false} JoinedList(ts: seq<string>, dots: string, more: bool)
    ensures "[" + (Joined(ts) + ((if !more then "" else if ts == [] then dots else ", " + dots) + "]"))
            == "[" + (Joined(ts + if more then [dots] else []) + "]")
  {
    if more {
      JoinedMore(ts, dots);
      Regroup(Joined(ts), if ts == [] then dots else ", " + dots, "]");
      assert ts == [] ==> Joined(ts) + dots == dots;
    } else {
      assert ts + [] == ts && "" + "]" == "]";
    }
  }

  /** A listing is its records and, if there are more, three dots, with commas between them and
      brackets around. */
  lemma {:induction false} ListingJoined(es: seq<Dirent>, more: bool)
    ensures Listing(DirentText, es, more) == "[" + (Joined(Texts(es) + if more then ["..."] else []) + "]")
  {
    EntriesJoined(es, true);
    var ts := Texts(es);
    assert "" + Joined(ts) == Joined(ts);
    assert ", ..." == ", " + "...";
    JoinedList(ts, "...", more);
  }

  /** The text for a packed directory: the first records that fit, in order, in the program's format,
      and three dots when they do not fill the bytes read. */
  lemma {:induction false} DirectoryShown(mem: Memory, addr: nat, rs: seq<Record>)
    requires rs != [] && AllWellFormed(rs) && Holds(mem, addr, rs)
    ensures var ret, es := |Pack(rs)|, Entries(rs)[..Shown(rs)];
            GetdentsText(DirentText, mem, addr, ret) ==
            "[" + (Joined(Texts(es) + if Size(es) < Want(ret) then ["..."] else []) + "]")
  {
    var es := Entries(rs)[..Shown(rs)];
    GetdentsOfPacked(DirentText, mem, addr, rs);
    ListingJoined(es, Size(es) < Want(|Pack(rs)|));
  }
}
