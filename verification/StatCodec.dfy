/** The machine-independent stat layout of stat(5): a two-byte size, then integers of fixed width
    and counted strings, all little-endian. */
module StatCodec {
  import opened Qp

  function Pow256(w: nat): nat {
    if w == 0 then 1 else 256 * Pow256(w - 1)
  }

  // A little-endian integer of w bytes.
  function Int(n: nat, w: nat): seq<byte>
    ensures |Int(n, w)| == w
  {
    if w == 0 then [] else [n % 256] + Int(n / 256, w - 1)
  }

  function GetInt(b: seq<byte>): nat {
    if b == [] then 0 else b[0] + 256 * GetInt(b[1..])
  }

  lemma {:induction false} IntRoundTrip(n: nat, w: nat)
    requires n < Pow256(w)
    ensures GetInt(Int(n, w)) == n
  {
    if w > 0 {
      IntRoundTrip(n / 256, w - 1);
      assert Int(n, w)[1..] == Int(n / 256, w - 1);
    }
  }

  // The least significant byte comes first.
  lemma LittleEndian(b0: byte, b1: byte, b2: byte, b3: byte)
    ensures GetInt([b0]) == b0
    ensures GetInt([b0, b1]) == b0 as nat + 0x100 * b1 as nat
    ensures GetInt([b0, b1, b2, b3]) == b0 as nat + 0x100 * b1 as nat + 0x1_0000 * b2 as nat + 0x100_0000 * b3 as nat
  {
    assert [b0][1..] == [] && [b1][1..] == [] && [b3][1..] == [];
    assert [b0, b1][1..] == [b1] && GetInt([b1]) == b1;
    assert [b2, b3][1..] == [b3] && GetInt([b3]) == b3;
    assert [b1, b2, b3][1..] == [b2, b3] && GetInt([b2, b3]) == b2 as nat + 0x100 * b3 as nat;
    assert [b0, b1, b2, b3][1..] == [b1, b2, b3];
  }

  // ---- Fields ------------------------------------------------------------------------------

  datatype Field = Num(w: nat, n: nat) | Text(s: seq<byte>)

  datatype Shape = NumShape(w: nat) | TextShape

  predicate FieldFits(f: Field) {
    match f
    case Num(w, n) => n < Pow256(w)
    case Text(s) => |s| < Pow256(2)
  }

  function ShapeOf(f: Field): Shape {
    match f
    case Num(w, _) => NumShape(w)
    case Text(_) => TextShape
  }

  function Put(f: Field): seq<byte> {
    match f
    case Num(w, n) => Int(n, w)
    case Text(s) => Int(|s|, 2) + s
  }

  // One field off the front of b, and what follows it.
  function Get(b: seq<byte>, shape: Shape): Option<(Field, seq<byte>)> {
    match shape
    case NumShape(w) => if |b| < w then None else Some((Num(w, GetInt(b[..w])), b[w..]))
    case TextShape =>
      if |b| < 2 then None
      else
        var l := GetInt(b[..2]);
        if |b| - 2 < l then None else Some((Text(b[2..2 + l]), b[2 + l..]))
  }

  lemma FieldRoundTrip(f: Field, rest: seq<byte>)
    requires FieldFits(f)
    ensures Get(Put(f) + rest, ShapeOf(f)) == Some((f, rest))
  {
    var b := Put(f) + rest;
    match f
    case Num(w, n) =>
      IntRoundTrip(n, w);
      assert b[..w] == Int(n, w) && b[w..] == rest;
    case Text(s) =>
      IntRoundTrip(|s|, 2);
      assert b[..2] == Int(|s|, 2) && b[2..2 + |s|] == s && b[2 + |s|..] == rest;
  }

  function PutAll(fs: seq<Field>): seq<byte> {
    if fs == [] then [] else Put(fs[0]) + PutAll(fs[1..])
  }

  function GetAll(b: seq<byte>, shapes: seq<Shape>): Option<seq<Field>> {
    if shapes == [] then Some([])
    else
      match Get(b, shapes[0])
      case None => None
      case Some((f, rest)) =>
        match GetAll(rest, shapes[1..])
        case None => None
        case Some(fs) => Some([f] + fs)
  }

  lemma {:induction false} FieldsRoundTrip(fs: seq<Field>, shapes: seq<Shape>)
    requires |fs| == |shapes|
    requires forall i :: 0 <= i < |fs| ==> FieldFits(fs[i]) && shapes[i] == ShapeOf(fs[i])
    ensures GetAll(PutAll(fs), shapes) == Some(fs)
  {
    if fs != [] {
      FieldRoundTrip(fs[0], PutAll(fs[1..]));
      FieldsRoundTrip(fs[1..], shapes[1..]);
      assert [fs[0]] + fs[1..] == fs;
    }
  }

  // ---- Stat --------------------------------------------------------------------------------

  datatype Stat = Stat(typ: nat, dev: nat, qtype: nat, qvers: nat, qpath: nat, mode: nat, atime: nat, mtime: nat,
                       length: nat, name: seq<byte>, uid: seq<byte>, gid: seq<byte>, muid: seq<byte>)

  function Fields(s: Stat): seq<Field> {
    [Num(2, s.typ), Num(4, s.dev), Num(1, s.qtype), Num(4, s.qvers), Num(8, s.qpath), Num(4, s.mode), Num(4, s.atime),
     Num(4, s.mtime), Num(8, s.length), Text(s.name), Text(s.uid), Text(s.gid), Text(s.muid)]
  }

  const SHAPES := [NumShape(2), NumShape(4), NumShape(1), NumShape(4), NumShape(8), NumShape(4), NumShape(4),
                   NumShape(4), NumShape(8), TextShape, TextShape, TextShape, TextShape]

  function Marshal(s: Stat): seq<byte> {
    var body := PutAll(Fields(s));
    Int(|body|, 2) + body
  }

  function FromFields(fs: seq<Field>): Option<Stat> {
    if |fs| == 13 && (forall i :: 0 <= i < 9 ==> fs[i].Num?) && (forall i :: 9 <= i < 13 ==> fs[i].Text?) then
      Some(Stat(fs[0].n, fs[1].n, fs[2].n, fs[3].n, fs[4].n, fs[5].n, fs[6].n, fs[7].n, fs[8].n,
                fs[9].s, fs[10].s, fs[11].s, fs[12].s))
    else None
  }

  function Unmarshal(b: seq<byte>): Option<Stat> {
    if |b| < 2 then None
    else
      match GetAll(b[2..], SHAPES)
      case None => None
      case Some(fs) => FromFields(fs)
  }

  // Every field fits its place, and the size prefix can hold the size.
  predicate Encodable(s: Stat) {
    && (forall i :: 0 <= i < |Fields(s)| ==> FieldFits(Fields(s)[i]))
    && |PutAll(Fields(s))| < Pow256(2)
  }

  lemma MarshalParts(s: Stat)
    ensures var body := PutAll(Fields(s));
      |Marshal(s)| == 2 + |body| && Marshal(s)[..2] == Int(|body|, 2) && Marshal(s)[2..] == body
  {
  }

  lemma FromOwnFields(s: Stat)
    ensures FromFields(Fields(s)) == Some(s)
  {
  }

  lemma StatRoundTrip(s: Stat)
    requires Encodable(s)
    ensures Unmarshal(Marshal(s)) == Some(s)
    ensures |Marshal(s)| >= 2 && GetInt(Marshal(s)[..2]) + 2 == |Marshal(s)|
  {
    MarshalParts(s);
    FromOwnFields(s);
    FieldsRoundTrip(Fields(s), SHAPES);
    IntRoundTrip(|PutAll(Fields(s))|, 2);
  }

  function Counted(s: seq<byte>): seq<byte> {
    Int(|s|, 2) + s
  }

  function Concat(parts: seq<seq<byte>>): seq<byte> {
    if parts == [] then [] else parts[0] + Concat(parts[1..])
  }

  lemma {:induction false} PutAllConcat(fs: seq<Field>, parts: seq<seq<byte>>)
    requires |fs| == |parts| && forall i :: 0 <= i < |fs| ==> parts[i] == Put(fs[i])
    ensures PutAll(fs) == Concat(parts)
  {
    if fs != [] { PutAllConcat(fs[1..], parts[1..]); }
  }

  // The order and the widths of stat(5): size[2], then type[2] dev[4] qid.type[1] qid.vers[4]
  // qid.path[8] mode[4] atime[4] mtime[4] length[8] name[s] uid[s] gid[s] muid[s].
  lemma Layout(s: Stat)
    ensures Marshal(s) == Int(|Marshal(s)| - 2, 2) + Concat(
      [Int(s.typ, 2), Int(s.dev, 4), Int(s.qtype, 1), Int(s.qvers, 4), Int(s.qpath, 8), Int(s.mode, 4),
       Int(s.atime, 4), Int(s.mtime, 4), Int(s.length, 8),
       Counted(s.name), Counted(s.uid), Counted(s.gid), Counted(s.muid)])
  {
    PutAllConcat(Fields(s),
      [Int(s.typ, 2), Int(s.dev, 4), Int(s.qtype, 1), Int(s.qvers, 4), Int(s.qpath, 8), Int(s.mode, 4),
       Int(s.atime, 4), Int(s.mtime, 4), Int(s.length, 8),
       Counted(s.name), Counted(s.uid), Counted(s.gid), Counted(s.muid)]);
    MarshalParts(s);
  }
}
