/** The serializer and the deserializer as the source runs them: recursive procedures with
    counted loops that append to, or advance in, one shared `memory_stream`.
  */
module GosStream {
  import opened GosCodec
  import opened GosRoundTrip
  import opened GosShape
  import opened GosWire

  /** `memory_stream`: the bytes written so far and the read position. */
  class MemoryStream {
    var data: seq<byte>
    var rdPos: nat

    ghost predicate Valid()
      reads this
    {
      rdPos <= |data|
    }

    /** The bytes not read yet. */
    function Ahead(): seq<byte>
      requires Valid()
      reads this
    {
      data[rdPos..]
    }

    constructor ()
      ensures Valid() && data == [] && rdPos == 0
    {
      data := [];
      rdPos := 0;
    }

    method WriteValue(b: seq<byte>)
      modifies this`data
      ensures data == old(data) + b
    {
      data := data + b;
    }

    method WriteString(c: seq<byte>)
      modifies this`data
      ensures data == old(data) + ChunkBytes(Text(c))
    {
      data := data + Little(|c|, 2);
      data := data + c;
    }

    /** `read_value` into an object of `w` zero bytes. */
    method ReadValueBytes(w: nat) returns (b: seq<byte>)
      requires Valid()
      modifies this`rdPos
      ensures Valid() && (b, Ahead()) == ReadValue(w, old(Ahead()))
    {
      if rdPos + w > |data| {
        return Zeros(w);
      }
      b := data[rdPos..rdPos + w];
      rdPos := rdPos + w;
      assert old(Ahead())[..w] == b;
    }

    /** `read_string` into an empty string. */
    method ReadString() returns (c: seq<byte>)
      requires Valid()
      modifies this`rdPos
      ensures Valid() && (c, Ahead()) == ReadText(old(Ahead()))
    {
      ghost var s := Ahead();
      if |data| <= rdPos + 2 {
        return [];
      }
      assert s[..2] == data[rdPos..rdPos + 2];
      var len := Number(data[rdPos..rdPos + 2]);
      if len >= MAX_TEXT || len > |data| - rdPos - 2 {
        rdPos := |data|;
        assert Ahead() == [];
        return [];
      }
      rdPos := rdPos + 2;
      c := UpToZero(data[rdPos..rdPos + len]);
      assert s[2..2 + len] == data[rdPos..rdPos + len];
      rdPos := rdPos + len;
      assert s[2 + len..] == Ahead();
      ReadTextAt(s, len);
    }
  }

  /** The `be` flag of the adapters is `is_big_endian_`. */
  class Serializer {
    const wr: MemoryStream
    const be: bool

    constructor (wr: MemoryStream, be: bool)
      ensures this.wr == wr && this.be == be
    {
      this.wr := wr;
      this.be := be;
    }

    method Serialize(t: Ty, v: Val)
      requires HasType(v, t)
      modifies wr`data
      ensures wr.data == old(wr.data) + Bytes(Encode(t, v, true, be))
      ensures old(wr.data) <= wr.data && LaidOut(t, v, true, be, wr.data[|old(wr.data)|..])
    {
      WriteObject(t, v, true);
      WireExact(t, v, true, be, Bytes(Encode(t, v, true, be)));
      assert wr.data[|old(wr.data)|..] == Bytes(Encode(t, v, true, be));
    }

    method WriteObject(t: Ty, v: Val, key: bool)
      requires HasType(v, t)
      modifies wr`data
      ensures wr.data == old(wr.data) + Bytes(Encode(t, v, key, be))
      decreases t, 2, 0
    {
      match t
      case Num(_) =>
        wr.WriteValue(v.bytes);
        BytesOne(Raw(v.bytes));
      case Str =>
        wr.WriteString(v.chars);
        BytesOne(Text(v.chars));
      case Opt(e) =>
        wr.WriteValue([if v.VNone? then 1 else 0]);
        BytesOne(Raw([if v.VNone? then 1 else 0]));
        if v.VSome? {
          WriteObject(e, v.value, key);
          WrittenThen(old(wr.data), [Raw([0])], Encode(e, v.value, key, be));
        }
      case Struct(fs) => WriteItems(fs, v.vals, true);
      case Tuple(ts) => WriteItems(ts, v.vals, key);
      case List(e) =>
        WriteCount(|v.vals|, EncodeAll(e, v.vals, be));
        WriteOnlyArray(e, v.vals);
      case Set(e, _) =>
        WriteCount(|v.vals|, EncodeAll(e, v.vals, be));
        WriteOnlyArray(e, v.vals);
      case Arr(e, _) => WriteOnlyArray(e, v.vals);
      case Map(_, _, _) =>
        WriteCount(|v.vals|, EncodeEntries(t, v.vals, key, be));
        WriteEntries(t, v.vals, key);
      case Pair(_, _) => WriteKV(t, v, key);
    }

    /** `begin_array`; `c` is what will follow. */
    method WriteCount(n: nat, ghost c: seq<Chunk>)
      modifies wr`data
      ensures wr.data + Bytes(c) == old(wr.data) + Bytes([Raw(Length(be, n))] + c)
    {
      wr.WriteValue(Length(be, n));
      BytesOne(Raw(Length(be, n)));
      WrittenThen(old(wr.data), [Raw(Length(be, n))], c);
    }

    /** `for_each` over the fields of a class or the items of a tuple. */
    method WriteItems(ts: seq<Ty>, vs: seq<Val>, key: bool)
      requires |ts| == |vs| && forall i :: 0 <= i < |ts| ==> HasType(vs[i], ts[i])
      modifies wr`data
      ensures wr.data == old(wr.data) + Bytes(EncodeItems(ts, vs, key, be))
      decreases ts, 3, 0
    {
      if ts != [] {
        WriteObject(ts[0], vs[0], key);
        WriteItems(ts[1..], vs[1..], key);
        WrittenThen(old(wr.data), Encode(ts[0], vs[0], key, be), EncodeItems(ts[1..], vs[1..], key, be));
      }
    }

    method WriteOnlyArray(t: Ty, vs: seq<Val>)
      requires forall x :: x in vs ==> HasType(x, t)
      modifies wr`data
      ensures wr.data == old(wr.data) + Bytes(EncodeAll(t, vs, be))
      decreases t, 3, |vs|
    {
      ghost var whole := wr.data + Bytes(EncodeAll(t, vs, be));
      var i := 0;
      while i < |vs|
        invariant 0 <= i <= |vs|
        invariant wr.data + Bytes(EncodeAll(t, vs[i..], be)) == whole
      {
        ghost var before := wr.data;
        WriteObject(t, vs[i], false);
        AllNext(t, vs, i, be);
        WrittenThen(before, Encode(t, vs[i], false, be), EncodeAll(t, vs[i + 1..], be));
        i := i + 1;
      }
      NothingLeft(wr.data);
    }

    method WriteKV(t: Ty, p: Val, key: bool)
      requires (t.Map? || t.Pair?) && IsEntry(p, t)
      modifies wr`data
      ensures wr.data == old(wr.data) + Bytes(EncodeEntry(t, p, key, be))
      decreases t, 0, 0
    {
      if key {
        WriteObject(t.key, p.first, true);
        WrittenThen(old(wr.data), Encode(t.key, p.first, true, be), Encode(t.elem, p.second, true, be));
      } else {
        assert [] + Encode(t.elem, p.second, true, be) == Encode(t.elem, p.second, true, be);
      }
      WriteObject(t.elem, p.second, true);
    }

    method WriteEntries(t: Ty, vs: seq<Val>, key: bool)
      requires (t.Map? || t.Pair?) && forall x :: x in vs ==> IsEntry(x, t)
      modifies wr`data
      ensures wr.data == old(wr.data) + Bytes(EncodeEntries(t, vs, key, be))
      decreases t, 1, |vs|
    {
      ghost var whole := wr.data + Bytes(EncodeEntries(t, vs, key, be));
      var i := 0;
      while i < |vs|
        invariant 0 <= i <= |vs|
        invariant wr.data + Bytes(EncodeEntries(t, vs[i..], key, be)) == whole
      {
        ghost var before := wr.data;
        WriteKV(t, vs[i], key);
        EntriesNext(t, vs, i, key, be);
        WrittenThen(before, EncodeEntry(t, vs[i], key, be), EncodeEntries(t, vs[i + 1..], key, be));
        i := i + 1;
      }
      NothingLeft(wr.data);
    }
  }

  /** The range of `size_t`. */
  const MAX_SIZE := 0x1_0000_0000_0000_0000

  /** `DeSerializer<gos_deserialize_adapter, OtherTuple>`; `sides` is the side tuple and `sideTypes` its
      element types. */
  class Deserializer {
    const rd: MemoryStream
    const be: bool
    const sideTypes: seq<nat>
    const sides: seq<Val>

    constructor (rd: MemoryStream, be: bool, sideTypes: seq<nat>, sides: seq<Val>)
      ensures this.rd == rd && this.be == be && this.sideTypes == sideTypes && this.sides == sides
    {
      this.rd := rd;
      this.be := be;
      this.sideTypes := sideTypes;
      this.sides := sides;
    }

    method DeSerialize(t: Ty) returns (v: Val)
      requires rd.Valid()
      modifies rd`rdPos
      ensures rd.Valid() && (v, rd.Ahead()) == Decode(t, true, be, old(rd.Ahead()))
    {
      v := ReadObject(t, true);
    }

    /** `GetTuple` and `make`: the handler's arguments. */
    method GetTuple(params: seq<CType>) returns (vs: seq<Val>)
      requires rd.Valid() && |sides| == |sideTypes|
      modifies rd`rdPos
      ensures rd.Valid()
      ensures (vs, rd.Ahead()) == GosShape.GetTuple(Resolve(params, sideTypes), sides, be, old(rd.Ahead()))
    {
      if params == [] {
        return [];
      }
      ghost var sig := Resolve(params, sideTypes);
      assert sig[1..] == Resolve(params[1..], sideTypes);
      var v;
      var i := SideIndex(params[0].name, sideTypes);
      if i < |sideTypes| {
        v := sides[i];
      } else {
        v := ReadObject(params[0].shape, true);
      }
      var more := GetTuple(params[1..]);
      vs := [v] + more;
    }

    method ReadObject(t: Ty, key: bool) returns (v: Val)
      requires rd.Valid()
      modifies rd`rdPos
      ensures rd.Valid() && (v, rd.Ahead()) == Decode(t, key, be, old(rd.Ahead()))
      decreases t, 2, 0
    {
      match t
      case Num(w) =>
        var b := rd.ReadValueBytes(w);
        v := VNum(b);
      case Str =>
        var c := rd.ReadString();
        v := VStr(c);
      case Opt(e) => v := ReadOptional(e, key);
      case Struct(fs) =>
        var vs := ReadTuple(fs, true);
        v := VSeq(vs);
      case Tuple(ts) =>
        var vs := ReadTuple(ts, false);
        v := VSeq(vs);
      case Arr(e, n) =>
        var vs := ReadArray(e, n);
        v := VSeq(vs);
      case List(_) => v := ReadContainer(t, key);
      case Set(_, _) => v := ReadContainer(t, key);
      case Map(_, _, _) => v := ReadContainer(t, key);
      case Pair(_, _) => v := ReadKV(t, key);
    }

    method ReadOptional(e: Ty, key: bool) returns (v: Val)
      requires rd.Valid()
      modifies rd`rdPos
      ensures rd.Valid() && (v, rd.Ahead()) == Decode(Opt(e), key, be, old(rd.Ahead()))
      decreases e, 4, 0
    {
      var isNull := rd.ReadValueBytes(1);
      if isNull == [0] {
        var x := ReadObject(e, true);
        v := VSome(x);
      } else {
        v := VNone;
      }
    }

    /** A count and that many elements or entries. */
    method ReadContainer(t: Ty, key: bool) returns (v: Val)
      requires rd.Valid() && (t.List? || t.Set? || t.Map?)
      modifies rd`rdPos
      ensures rd.Valid() && (v, rd.Ahead()) == Decode(t, key, be, old(rd.Ahead()))
      decreases t, 1, MAX_SIZE + 1
    {
      var vs;
      var n := ReadCount();
      if t.List? {
        vs := ReadArray(t.elem, n);
      } else if t.Set? {
        vs := ReadSet(t.elem, t.multi, n);
      } else {
        vs := ReadMap(t, n, key);
      }
      v := VSeq(vs);
    }

    /** `begin_array`. */
    method ReadCount() returns (n: nat)
      requires rd.Valid()
      modifies rd`rdPos
      ensures rd.Valid() && (n, rd.Ahead()) == ReadLength(be, old(rd.Ahead())) && n < MAX_SIZE
    {
      var b := rd.ReadValueBytes(4);
      n := Number(Swapped(be, b));
      NumberBelow(Swapped(be, b));
      if n >= MAX_COUNT {
        n := n + 0xFFFF_FFFF_0000_0000;
      }
    }

    method ReadTuple(ts: seq<Ty>, key: bool) returns (vs: seq<Val>)
      requires rd.Valid()
      modifies rd`rdPos
      ensures rd.Valid() && (vs, rd.Ahead()) == DecodeItems(ts, key, be, old(rd.Ahead()))
      decreases ts, 3, 0
    {
      if ts == [] {
        return [];
      }
      var v := ReadObject(ts[0], key);
      var more := ReadTuple(ts[1..], key);
      vs := [v] + more;
    }

    method ReadArray(t: Ty, n: nat) returns (vs: seq<Val>)
      requires rd.Valid()
      modifies rd`rdPos
      ensures rd.Valid() && (vs, rd.Ahead()) == DecodeAll(t, n, be, old(rd.Ahead()))
      decreases t, 3, n + 1
    {
      ghost var whole := DecodeAll(t, n, be, rd.Ahead());
      LeadsStart(t, n, be, rd.Ahead());
      vs := ReadElements(t, n, whole);
      LeadsEnd(vs, t, be, rd.Ahead(), whole);
    }

    method ReadElements(t: Ty, n: nat, ghost whole: (seq<Val>, seq<byte>)) returns (vs: seq<Val>)
      requires rd.Valid() && Leads([], t, n, be, rd.Ahead(), whole)
      modifies rd`rdPos
      ensures rd.Valid() && Leads(vs, t, 0, be, rd.Ahead(), whole)
      decreases t, 3, n
    {
      var i := 0;
      vs := [];
      while i < n
        invariant 0 <= i <= n && rd.Valid()
        invariant Leads(vs, t, n - i, be, rd.Ahead(), whole)
      {
        vs := ReadElement(t, vs, n - i, whole);
        i := i + 1;
      }
    }

    /** One turn of the loop: an element is read and put at the back. */
    method ReadElement(t: Ty, vs: seq<Val>, ghost left: nat, ghost whole: (seq<Val>, seq<byte>))
        returns (more: seq<Val>)
      requires rd.Valid() && left > 0 && Leads(vs, t, left, be, rd.Ahead(), whole)
      modifies rd`rdPos
      ensures rd.Valid() && Leads(more, t, left - 1, be, rd.Ahead(), whole)
      decreases t, 3, 0
    {
      LeadsStep(vs, t, left, be, rd.Ahead(), whole);
      var v := ReadObject(t, false);
      more := vs + [v];
    }

    method ReadSet(t: Ty, multi: bool, n: nat) returns (acc: seq<Val>)
      requires rd.Valid()
      modifies rd`rdPos
      ensures rd.Valid() && (acc, rd.Ahead()) == DecodeSet(t, multi, n, be, old(rd.Ahead()), [])
      decreases t, 3, n
    {
      var i := 0;
      acc := [];
      while i < n
        invariant 0 <= i <= n && rd.Valid()
        invariant DecodeSet(t, multi, n - i, be, rd.Ahead(), acc) == DecodeSet(t, multi, n, be, old(rd.Ahead()), [])
      {
        var v := ReadObject(t, false);
        acc := Insert(acc, v, multi);
        i := i + 1;
      }
    }

    /** Without the key flag the key of the pair keeps its initial value. */
    method ReadKV(t: Ty, key: bool) returns (p: Val)
      requires rd.Valid() && (t.Map? || t.Pair?)
      modifies rd`rdPos
      ensures rd.Valid() && (p, rd.Ahead()) == DecodeEntry(t, key, be, old(rd.Ahead()))
      decreases t, 0, 0
    {
      var k := Default(t.key);
      if key {
        k := ReadObject(t.key, true);
      }
      var v := ReadObject(t.elem, true);
      p := VPair(k, v);
    }

    method ReadMap(t: Ty, n: nat, key: bool) returns (acc: seq<Val>)
      requires rd.Valid() && t.Map?
      modifies rd`rdPos
      ensures rd.Valid() && (acc, rd.Ahead()) == DecodeMap(t, n, key, be, old(rd.Ahead()), [])
      decreases t, 1, n
    {
      var i := 0;
      acc := [];
      while i < n
        invariant 0 <= i <= n && rd.Valid()
        invariant DecodeMap(t, n - i, key, be, rd.Ahead(), acc) == DecodeMap(t, n, key, be, old(rd.Ahead()), [])
      {
        var p := ReadKV(t, key);
        acc := InsertEntry(acc, p, t.multi);
        i := i + 1;
      }
    }
  }

  function Prepend(vs: seq<Val>, r: (seq<Val>, seq<byte>)): (seq<Val>, seq<byte>) { (vs + r.0, r.1) }

  predicate Is(r: (seq<Val>, seq<byte>), q: (seq<Val>, seq<byte>)) { r == q }

  /** With `vs` read so far, reading `left` more elements from `s` completes `whole`. */
  ghost predicate Leads(vs: seq<Val>, t: Ty, left: nat, be: bool, s: seq<byte>, whole: (seq<Val>, seq<byte>))
  {
    forall r {:trigger Prepend(vs, r)} :: Is(r, DecodeAll(t, left, be, s)) ==> Prepend(vs, r) == whole
  }

  lemma LeadsStart(t: Ty, n: nat, be: bool, s: seq<byte>)
    ensures Leads([], t, n, be, s, DecodeAll(t, n, be, s))
  {
    forall r | Is(r, DecodeAll(t, n, be, s))
      ensures Prepend([], r) == DecodeAll(t, n, be, s)
    {
      assert [] + r.0 == r.0;
    }
  }

  lemma LeadsStep(vs: seq<Val>, t: Ty, left: nat, be: bool, s: seq<byte>, whole: (seq<Val>, seq<byte>))
    requires left > 0 && Leads(vs, t, left, be, s, whole)
    ensures var (v, rest) := Decode(t, false, be, s); Leads(vs + [v], t, left - 1, be, rest, whole)
  {
    var (v, rest) := Decode(t, false, be, s);
    forall r | Is(r, DecodeAll(t, left - 1, be, rest))
      ensures Prepend(vs + [v], r) == whole
    {
      assert vs + [v] + r.0 == vs + ([v] + r.0);
      assert Prepend(vs, DecodeAll(t, left, be, s)) == whole;
    }
  }

  lemma LeadsEnd(vs: seq<Val>, t: Ty, be: bool, s: seq<byte>, whole: (seq<Val>, seq<byte>))
    requires Leads(vs, t, 0, be, s, whole)
    ensures whole == (vs, s)
  {
    assert Prepend(vs, DecodeAll(t, 0, be, s)) == whole;
    assert vs + [] == vs;
  }

  /** A value of a well-shaped type survives the trip through a stream. */
  method Transfer(t: Ty, v: Val, be: bool) returns (got: Val)
    requires HasType(v, t) && WellShaped(t, true, true)
    ensures got == v
  {
    var stream := new MemoryStream();
    var writer := new Serializer(stream, be);
    writer.Serialize(t, v);
    var reader := new Deserializer(stream, be, [], []);
    assert stream.Ahead() == Bytes(Encode(t, v, true, be)) + [];
    RoundTrip(t, v, true, true, be, []);
    got := reader.DeSerialize(t);
  }

  /** A remote call: the client packs its arguments, the server builds the handler's arguments
      from them and its own side values.  `unread` is what stays in the stream. */
  method Call(params: seq<CType>, sideTypes: seq<nat>, sides: seq<Val>, args: seq<Val>, be: bool)
      returns (got: seq<Val>, unread: seq<byte>)
    requires |sides| == |sideTypes|
    requires forall p :: p in params && p.name !in sideTypes ==> WellShaped(p.shape, true, true)
    requires HasType(VSeq(args), Tuple(WireTypes(Resolve(params, sideTypes))))
    ensures ByType(params, sideTypes, sides, args, got)
    ensures unread == [] <==> !EndsEmpty(Pack(WireTypes(Resolve(params, sideTypes)), args, be))
  {
    var sig := Resolve(params, sideTypes);
    var stream := new MemoryStream();
    var writer := new Serializer(stream, be);
    writer.Serialize(Tuple(WireTypes(sig)), VSeq(args));
    var reader := new Deserializer(stream, be, sideTypes, sides);
    assert stream.Ahead() == Bytes(Pack(WireTypes(sig), args, be)) + [];
    Injection(sig, sides, args, be, []);
    InjectionConsumesExact(sig, sides, args, be, []);
    got := reader.GetTuple(params);
    unread := stream.Ahead();
    InjectionByType(params, sideTypes, sides, args, got);
  }

  lemma NumberBelow(s: seq<byte>)
    requires |s| == 4
    ensures Number(s) < 0x1_0000_0000
  {
    assert s[1..][1..] == s[2..] && s[2..][1..] == s[3..] && s[3..][1..] == [];
    assert Number(s[3..]) == s[3] && Number(s[2..]) == s[2] + 256 * Number(s[3..]);
    assert Number(s[1..]) == s[1] + 256 * Number(s[2..]);
  }

  lemma WrittenThen(d: seq<byte>, c1: seq<Chunk>, c2: seq<Chunk>)
    ensures d + Bytes(c1) + Bytes(c2) == d + Bytes(c1 + c2)
  {
    BytesAppend(c1, c2);
    Associative(d, Bytes(c1), Bytes(c2));
  }

  lemma NothingLeft(d: seq<byte>)
    ensures d + Bytes([]) == d
  {
  }

  lemma AllNext(t: Ty, vs: seq<Val>, i: nat, be: bool)
    requires i < |vs| && forall x :: x in vs ==> HasType(x, t)
    ensures EncodeAll(t, vs[i..], be) == Encode(t, vs[i], false, be) + EncodeAll(t, vs[i + 1..], be)
  {
    assert vs[i..][1..] == vs[i + 1..];
  }

  lemma EntriesNext(t: Ty, vs: seq<Val>, i: nat, key: bool, be: bool)
    requires i < |vs| && (t.Map? || t.Pair?) && forall x :: x in vs ==> IsEntry(x, t)
    ensures EncodeEntries(t, vs[i..], key, be)
            == EncodeEntry(t, vs[i], key, be) + EncodeEntries(t, vs[i + 1..], key, be)
  {
    assert vs[i..][1..] == vs[i + 1..];
  }
}
