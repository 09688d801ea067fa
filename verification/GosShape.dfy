/** The shape condition is exact, and arguments packed by a client reach the handler. */
module GosShape {
  import opened GosCodec
  import opened GosRoundTrip

  /** The type compiles at this point: numbers have a size, keys are numbers, enums or strings, and
      where a key is only named (`write_key_name`, `read_field_name`) it is a string. */
  predicate Legal(t: Ty, w: bool, r: bool)
    decreases t
  {
    match t
    case Num(n) => n >= 1
    case Str => true
    case Opt(e) => Legal(e, w, true)
    case Struct(fs) => forall i :: 0 <= i < |fs| ==> Legal(fs[i], true, true)
    case Tuple(ts) => forall i :: 0 <= i < |ts| ==> Legal(ts[i], w, false)
    case List(e) => Legal(e, false, false)
    case Set(e, _) => Legal(e, false, false)
    case Arr(e, _) => Legal(e, false, false)
    case Map(k, e, _) => (k.Str? || (k.Num? && k.width >= 1 && w && r)) && Legal(e, true, true)
    case Pair(k, e) => (k.Str? || (k.Num? && k.width >= 1 && w && r)) && Legal(e, true, true)
  }

  const LETTER_A: seq<byte> := [97]
  const LETTER_B: seq<byte> := [98]

  /** Some value of every legal type. */
  function Sample(t: Ty): Val
    decreases t, 0
  {
    match t
    case Num(n) => VNum(Zeros(n))
    case Str => VStr(LETTER_A)
    case Opt(_) => VNone
    case Struct(fs) => VSeq(Samples(fs))
    case Tuple(ts) => VSeq(Samples(ts))
    case List(_) => VSeq([])
    case Set(_, _) => VSeq([])
    case Map(_, _, _) => VSeq([])
    case Arr(e, n) => VSeq(seq(n, _ => Sample(e)))
    case Pair(k, e) => VPair(Sample(k), Sample(e))
  }

  function Samples(ts: seq<Ty>): (r: seq<Val>)
    ensures |r| == |ts|
    decreases ts, 1
  {
    if ts == [] then [] else [Sample(ts[0])] + Samples(ts[1..])
  }

  lemma {:induction false} SampleTyped(t: Ty, w: bool, r: bool)
    requires Legal(t, w, r)
    ensures HasType(Sample(t), t)
    decreases t, 0
  {
    match t
    case Num(_) =>
    case Str =>
    case Opt(_) =>
    case Struct(fs) => SamplesTyped(fs, true, true);
    case Tuple(ts) => SamplesTyped(ts, w, false);
    case List(_) =>
    case Set(_, _) =>
    case Map(_, _, _) =>
    case Arr(e, _) => SampleTyped(e, false, false);
    case Pair(k, e) =>
      SampleTyped(e, true, true);
      assert HasType(Sample(k), k);
  }

  lemma {:induction false} SamplesTyped(ts: seq<Ty>, w: bool, r: bool)
    requires forall i :: 0 <= i < |ts| ==> Legal(ts[i], w, r)
    ensures forall i :: 0 <= i < |ts| ==> HasType(Samples(ts)[i], ts[i])
    decreases ts, 1
  {
    if ts != [] {
      SampleTyped(ts[0], w, r);
      SamplesTyped(ts[1..], w, r);
    }
  }

  /** No chunk is an empty text. */
  predicate Plain(cs: seq<Chunk>) { forall i :: 0 <= i < |cs| ==> cs[i] != Text([]) }

  lemma {:induction false} SamplePlain(t: Ty, w: bool, be: bool)
    requires HasType(Sample(t), t)
    ensures Plain(Encode(t, Sample(t), w, be))
    decreases t, 0
  {
    match t
    case Num(_) =>
    case Str =>
    case Opt(_) =>
    case Struct(fs) => SamplesPlain(fs, true, be);
    case Tuple(ts) => SamplesPlain(ts, w, be);
    case List(_) =>
    case Set(_, _) =>
    case Map(_, _, _) =>
    case Arr(e, n) =>
      if n > 0 {
        assert Sample(t).vals[0] == Sample(e);
        SamplePlain(e, false, be);
        CopiesPlain(e, Sample(t).vals, be);
      }
    case Pair(k, e) =>
      SamplePlain(k, true, be);
      SamplePlain(e, true, be);
  }

  lemma {:induction false} SamplesPlain(ts: seq<Ty>, w: bool, be: bool)
    requires forall i :: 0 <= i < |ts| ==> HasType(Samples(ts)[i], ts[i])
    ensures Plain(EncodeItems(ts, Samples(ts), w, be))
    decreases ts, 1
  {
    if ts != [] {
      assert Samples(ts)[0] == Sample(ts[0]) && Samples(ts)[1..] == Samples(ts[1..]);
      SamplePlain(ts[0], w, be);
      SamplesPlain(ts[1..], w, be);
    }
  }

  lemma {:induction false} CopiesPlain(e: Ty, vs: seq<Val>, be: bool)
    requires HasType(Sample(e), e) && (forall x :: x in vs ==> x == Sample(e))
    requires Plain(Encode(e, Sample(e), false, be))
    ensures Plain(EncodeAll(e, vs, be))
  {
    if vs != [] {
      assert vs[0] in vs && forall x :: x in vs[1..] ==> x in vs;
      CopiesPlain(e, vs[1..], be);
    }
  }

  /** What was written as `c1` and `c2` is, for the reader of `c1`, followed by `c2`. */
  lemma Split(c1: seq<Chunk>, c2: seq<Chunk>, rest: seq<byte>)
    ensures Bytes(c1 + c2) + rest == Bytes(c1) + (Bytes(c2) + rest)
  {
    BytesAppend(c1, c2);
    Associative(Bytes(c1), Bytes(c2), rest);
  }

  /** A value of an ill-shaped type that is not recovered when `rest` follows. */
  lemma {:induction false} Fails(t: Ty, w: bool, r: bool, be: bool, rest: seq<byte>) returns (v: Val)
    requires Legal(t, w, r) && !WellShaped(t, w, r)
    ensures HasType(v, t) && Decode(t, r, be, Bytes(Encode(t, v, w, be)) + rest).0 != v
    decreases t, 2, 0
  {
    match t
    case Opt(e) =>
      var x := Fails(e, w, true, be, rest);
      v := VSome(x);
      OptRead(e, x, w, r, be, rest);
    case Struct(fs) =>
      var vs := FailsItems(fs, true, true, be, rest);
      v := VSeq(vs);
    case Tuple(ts) =>
      var vs := FailsItems(ts, w, false, be, rest);
      v := VSeq(vs);
    case List(_) => v := FailsSequence(t, w, r, be, rest);
    case Arr(_, _) => v := FailsSequence(t, w, r, be, rest);
    case Set(_, _) => v := FailsKeyed(t, w, r, be, rest);
    case Map(_, _, _) => v := FailsKeyed(t, w, r, be, rest);
    case Pair(_, _) => v := FailsEntry(t, w, r, be, rest);
  }

  lemma {:induction false} FailsSequence(t: Ty, w: bool, r: bool, be: bool, rest: seq<byte>) returns (v: Val)
    requires (t.List? || t.Arr?) && Legal(t, w, r) && !WellShaped(t, w, r)
    ensures HasType(v, t) && Decode(t, r, be, Bytes(Encode(t, v, w, be)) + rest).0 != v
    decreases t, 1, 0
  {
    var vs := FailsAll(t.elem, if t.List? then 1 else t.n, be, rest);
    v := VSeq(vs);
    if t.List? {
      ListRead(t, v, w, r, be, rest);
    }
  }

  lemma {:induction false} FailsKeyed(t: Ty, w: bool, r: bool, be: bool, rest: seq<byte>) returns (v: Val)
    requires (t.Set? || t.Map?) && Legal(t, w, r) && !WellShaped(t, w, r)
    ensures HasType(v, t) && Decode(t, r, be, Bytes(Encode(t, v, w, be)) + rest).0 != v
    decreases t, 1, 0
  {
    if t.Set? {
      var vs := FailsAll(t.elem, 1, be, rest);
      v := VSeq(vs);
      SetRead(t, v, w, r, be, rest);
      SetOfOne(t.elem, t.multi, be, Bytes(EncodeAll(t.elem, vs, be)) + rest);
    } else {
      var p := FailsEntry(t, w, r, be, rest);
      v := VSeq([p]);
      MapRead(t, v, w, r, be, rest);
      EntriesOfOne(t, p, w, be);
      MapOfOne(t, r, be, Bytes(EncodeEntry(t, p, w, be)) + rest);
    }
  }

  /** A present optional is read by reading its value with the key flag set. */
  lemma OptRead(e: Ty, x: Val, w: bool, r: bool, be: bool, rest: seq<byte>)
    requires HasType(x, e)
    ensures Decode(Opt(e), r, be, Bytes(Encode(Opt(e), VSome(x), w, be)) + rest).0
            == VSome(Decode(e, true, be, Bytes(Encode(e, x, w, be)) + rest).0)
  {
    var c := Encode(e, x, w, be);
    Split([Raw([0])], c, rest);
    BytesOne(Raw([0]));
    RawBack([0], Bytes(c) + rest);
  }

  /** A list is read by reading its elements, whatever becomes of them. */
  lemma ListRead(t: Ty, v: Val, w: bool, r: bool, be: bool, rest: seq<byte>)
    requires t.List? && HasType(v, t)
    ensures Decode(t, r, be, Bytes(Encode(t, v, w, be)) + rest).0
            == VSeq(DecodeAll(t.elem, |v.vals|, be, Bytes(EncodeAll(t.elem, v.vals, be)) + rest).0)
  {
    AllSolid(t.elem, v.vals, be);
    CountedBack(be, |v.vals|, EncodeAll(t.elem, v.vals, be), rest);
  }

  /** So is a set, */
  lemma SetRead(t: Ty, v: Val, w: bool, r: bool, be: bool, rest: seq<byte>)
    requires t.Set? && HasType(v, t)
    ensures Decode(t, r, be, Bytes(Encode(t, v, w, be)) + rest).0
            == VSeq(DecodeSet(t.elem, t.multi, |v.vals|, be, Bytes(EncodeAll(t.elem, v.vals, be)) + rest, []).0)
  {
    AllSolid(t.elem, v.vals, be);
    CountedBack(be, |v.vals|, EncodeAll(t.elem, v.vals, be), rest);
  }

  /** and a map by reading its entries. */
  lemma MapRead(t: Ty, v: Val, w: bool, r: bool, be: bool, rest: seq<byte>)
    requires t.Map? && HasType(v, t)
    ensures Decode(t, r, be, Bytes(Encode(t, v, w, be)) + rest).0
            == VSeq(DecodeMap(t, |v.vals|, r, be, Bytes(EncodeEntries(t, v.vals, w, be)) + rest, []).0)
  {
    EntriesSolid(t, v.vals, w, be);
    CountedBack(be, |v.vals|, EncodeEntries(t, v.vals, w, be), rest);
  }

  lemma EntriesOfOne(t: Ty, p: Val, w: bool, be: bool)
    requires (t.Map? || t.Pair?) && IsEntry(p, t)
    ensures EncodeEntries(t, [p], w, be) == EncodeEntry(t, p, w, be)
  {
    assert [p][1..] == [] && EncodeEntries(t, [], w, be) == [];
  }

  lemma MapOfOne(t: Ty, r: bool, be: bool, s: seq<byte>)
    requires t.Map?
    ensures DecodeMap(t, 1, r, be, s, []).0 == [DecodeEntry(t, r, be, s).0]
  {
    var (p, rest) := DecodeEntry(t, r, be, s);
    assert DecodeMap(t, 0, r, be, rest, InsertEntry([], p, t.multi)).0 == [p];
  }

  lemma SetOfOne(e: Ty, multi: bool, be: bool, s: seq<byte>)
    ensures DecodeSet(e, multi, 1, be, s, []).0 == [Decode(e, false, be, s).0]
    ensures DecodeAll(e, 1, be, s).0 == [Decode(e, false, be, s).0]
  {
  }

  lemma {:induction false} FailsItems(ts: seq<Ty>, w: bool, r: bool, be: bool, rest: seq<byte>) returns (vs: seq<Val>)
    requires forall i :: 0 <= i < |ts| ==> Legal(ts[i], w, r)
    requires exists i :: 0 <= i < |ts| && !WellShaped(ts[i], w, r)
    ensures |vs| == |ts| && forall i :: 0 <= i < |ts| ==> HasType(vs[i], ts[i])
    ensures DecodeItems(ts, r, be, Bytes(EncodeItems(ts, vs, w, be)) + rest).0 != vs
    decreases ts, 3, 0
  {
    if !WellShaped(ts[0], w, r) {
      SamplesTyped(ts[1..], w, r);
      var c2 := EncodeItems(ts[1..], Samples(ts[1..]), w, be);
      var x := Fails(ts[0], w, r, be, Bytes(c2) + rest);
      vs := [x] + Samples(ts[1..]);
      FirstFails(ts, vs, w, r, be, rest);
    } else {
      SampleTyped(ts[0], w, r);
      var more := FailsItems(ts[1..], w, r, be, rest);
      vs := [Sample(ts[0])] + more;
      assert vs[1..] == more;
      SamplePlain(ts[0], w, be);
      LaterFails(ts, vs, w, r, be, rest);
    }
  }

  predicate Typed(ts: seq<Ty>, vs: seq<Val>) { |ts| == |vs| && forall i :: 0 <= i < |ts| ==> HasType(vs[i], ts[i]) }

  lemma FirstFails(ts: seq<Ty>, vs: seq<Val>, w: bool, r: bool, be: bool, rest: seq<byte>)
    requires ts != [] && Typed(ts, vs)
    requires var c1, c2 := Encode(ts[0], vs[0], w, be), EncodeItems(ts[1..], vs[1..], w, be);
             Decode(ts[0], r, be, Bytes(c1) + (Bytes(c2) + rest)).0 != vs[0]
    ensures DecodeItems(ts, r, be, Bytes(EncodeItems(ts, vs, w, be)) + rest).0 != vs
  {
    Split(Encode(ts[0], vs[0], w, be), EncodeItems(ts[1..], vs[1..], w, be), rest);
  }

  lemma LaterFails(ts: seq<Ty>, vs: seq<Val>, w: bool, r: bool, be: bool, rest: seq<byte>)
    requires ts != [] && Typed(ts, vs) && WellShaped(ts[0], w, r) && Plain(Encode(ts[0], vs[0], w, be))
    requires DecodeItems(ts[1..], r, be, Bytes(EncodeItems(ts[1..], vs[1..], w, be)) + rest).0 != vs[1..]
    ensures DecodeItems(ts, r, be, Bytes(EncodeItems(ts, vs, w, be)) + rest).0 != vs
  {
    var c1, c2 := Encode(ts[0], vs[0], w, be), EncodeItems(ts[1..], vs[1..], w, be);
    Split(c1, c2, rest);
    RoundTrip(ts[0], vs[0], w, r, be, Bytes(c2) + rest);
  }

  lemma FailsAll(e: Ty, n: nat, be: bool, rest: seq<byte>) returns (vs: seq<Val>)
    requires n >= 1 && Legal(e, false, false) && !WellShaped(e, false, false)
    ensures |vs| == n && forall x :: x in vs ==> HasType(x, e)
    ensures DecodeAll(e, n, be, Bytes(EncodeAll(e, vs, be)) + rest).0 != vs
    decreases e, 3, 0
  {
    SampleTyped(e, false, false);
    var more := seq(n - 1, _ => Sample(e));
    var c2 := EncodeAll(e, more, be);
    var x := Fails(e, false, false, be, Bytes(c2) + rest);
    vs := [x] + more;
    assert vs[1..] == more;
    Split(Encode(e, x, false, be), c2, rest);
  }

  lemma {:induction false} FailsEntry(t: Ty, w: bool, r: bool, be: bool, rest: seq<byte>) returns (p: Val)
    requires (t.Map? || t.Pair?) && Legal(t, w, r) && !WellShaped(t, w, r)
    ensures IsEntry(p, t)
    ensures DecodeEntry(t, r, be, Bytes(EncodeEntry(t, p, w, be)) + rest).0 != p
    decreases t, 0, 0
  {
    SampleTyped(t.elem, true, true);
    if w && r {
      var x := Fails(t.elem, true, true, be, rest);
      p := VPair(Sample(t.key), x);
      SamplePlain(t.key, true, be);
      ValueFails(t, p, be, rest);
    } else {
      p := FailsKey(t, Sample(t.elem), w, r, be, rest);
    }
  }

  lemma ValueFails(t: Ty, p: Val, be: bool, rest: seq<byte>)
    requires (t.Map? || t.Pair?) && IsEntry(p, t) && WellShaped(t.key, true, true)
    requires Plain(Encode(t.key, p.first, true, be))
    requires Decode(t.elem, true, be, Bytes(Encode(t.elem, p.second, true, be)) + rest).0 != p.second
    ensures DecodeEntry(t, true, be, Bytes(EncodeEntry(t, p, true, be)) + rest).0 != p
  {
    var c1, c2 := Encode(t.key, p.first, true, be), Encode(t.elem, p.second, true, be);
    Split(c1, c2, rest);
    RoundTrip(t.key, p.first, true, true, be, Bytes(c2) + rest);
  }

  /** The writer only names the key, or the reader does not read it: then the key that is read does not
      depend on the key that was written. */
  lemma FailsKey(t: Ty, s: Val, w: bool, r: bool, be: bool, rest: seq<byte>) returns (p: Val)
    requires (t.Map? || t.Pair?) && t.key.Str? && HasType(s, t.elem) && !(w && r)
    ensures IsEntry(p, t)
    ensures DecodeEntry(t, r, be, Bytes(EncodeEntry(t, p, w, be)) + rest).0 != p
  {
    if !r {
      p := VPair(VStr(LETTER_A), s);
    } else {
      var got := DecodeEntry(t, r, be, Bytes(Encode(t.elem, s, true, be)) + rest).0;
      p := if got == VPair(VStr(LETTER_A), s) then VPair(VStr(LETTER_B), s) else VPair(VStr(LETTER_A), s);
      assert [] + Encode(t.elem, s, true, be) == Encode(t.elem, s, true, be);
    }
  }

  /** Every value of `t` written under `w` is recovered under `r`, whatever follows. */
  ghost predicate AlwaysRecovered(t: Ty, w: bool, r: bool, be: bool)
  {
    forall v: Val, rest: seq<byte> ::
      HasType(v, t) ==> Decode(t, r, be, Bytes(Encode(t, v, w, be)) + rest).0 == v
  }

  /** The well-shaped types are exactly the types whose values always survive. */
  lemma ShapeExact(t: Ty, w: bool, r: bool, be: bool)
    requires Legal(t, w, r)
    ensures WellShaped(t, w, r) <==> AlwaysRecovered(t, w, r, be)
  {
    if WellShaped(t, w, r) {
      forall v: Val, rest: seq<byte> | HasType(v, t)
        ensures Decode(t, r, be, Bytes(Encode(t, v, w, be)) + rest).0 == v
      {
        RoundTrip(t, v, w, r, be, rest);
      }
    } else {
      var v := Fails(t, w, r, be, []);
    }
  }

  // -------------------------------------------------------- argument injection

  /** A handler parameter: read from the stream, or the i-th value of the side tuple. */
  datatype Param = Wire(t: Ty) | Side(i: nat)

  function WireTypes(sig: seq<Param>): seq<Ty>
  {
    if sig == [] then [] else (if sig[0].Wire? then [sig[0].t] else []) + WireTypes(sig[1..])
  }

  /** `GetTuple`: every wire parameter is read with the key flag set. */
  function GetTuple(sig: seq<Param>, sides: seq<Val>, be: bool, s: seq<byte>): (seq<Val>, seq<byte>)
    requires forall p :: p in sig && p.Side? ==> p.i < |sides|
  {
    if sig == [] then ([], s)
    else
      var (v, rest) := if sig[0].Wire? then Decode(sig[0].t, true, be, s) else (sides[sig[0].i], s);
      var (vs, rest') := GetTuple(sig[1..], sides, be, rest);
      ([v] + vs, rest')
  }

  /** What `pack_args` writes: the tuple of the client's arguments. */
  function Pack(ts: seq<Ty>, args: seq<Val>, be: bool): seq<Chunk>
    requires HasType(VSeq(args), Tuple(ts))
  {
    Encode(Tuple(ts), VSeq(args), true, be)
  }

  /** The number of wire parameters before position `i`. */
  function WiresBefore(sig: seq<Param>, i: nat): nat
    requires i <= |sig|
  {
    if i == 0 then 0 else (if sig[0].Wire? then 1 else 0) + WiresBefore(sig[1..], i - 1)
  }

  lemma {:induction false} WiresBound(sig: seq<Param>, i: nat)
    requires i <= |sig|
    ensures WiresBefore(sig, i) <= |WireTypes(sig)|
    ensures i < |sig| && sig[i].Wire? ==> WiresBefore(sig, i) < |WireTypes(sig)|
  {
    if i > 0 {
      WiresBound(sig[1..], i - 1);
    }
  }

  /** The client's arguments stand in order at the wire parameters, the side values at the others. */
  ghost predicate Injected(sig: seq<Param>, sides: seq<Val>, args: seq<Val>, got: seq<Val>)
    requires forall p :: p in sig && p.Side? ==> p.i < |sides|
  {
    && |got| == |sig|
    && forall i :: 0 <= i < |sig| ==>
         if sig[i].Side? then got[i] == sides[sig[i].i]
         else WiresBefore(sig, i) < |args| && got[i] == args[WiresBefore(sig, i)]
  }

  lemma InjectedStep(sig: seq<Param>, sides: seq<Val>, args: seq<Val>, v: Val, got: seq<Val>)
    requires sig != [] && forall p :: p in sig && p.Side? ==> p.i < |sides|
    requires if sig[0].Side? then v == sides[sig[0].i] else args != [] && v == args[0]
    requires Injected(sig[1..], sides, if sig[0].Side? then args else args[1..], got)
    ensures Injected(sig, sides, args, [v] + got)
  {
    forall i | 0 <= i < |sig|
      ensures if sig[i].Side? then ([v] + got)[i] == sides[sig[i].i]
              else WiresBefore(sig, i) < |args| && ([v] + got)[i] == args[WiresBefore(sig, i)]
    {
      if i > 0 {
        assert sig[i] == sig[1..][i - 1] && ([v] + got)[i] == got[i - 1];
      }
    }
  }

  /** `GetTuple` on what the client packed gives the handler the client's arguments at its wire
      parameters and the side values at the others, and consumes exactly the packed list. */
  lemma {:induction false} Injection(sig: seq<Param>, sides: seq<Val>, args: seq<Val>, be: bool, rest: seq<byte>)
    requires forall p :: p in sig && p.Side? ==> p.i < |sides|
    requires forall p :: p in sig && p.Wire? ==> WellShaped(p.t, true, true)
    requires HasType(VSeq(args), Tuple(WireTypes(sig)))
    ensures var (got, left) := GetTuple(sig, sides, be, Bytes(Pack(WireTypes(sig), args, be)) + rest);
            Injected(sig, sides, args, got) && left == Left(Pack(WireTypes(sig), args, be), rest)
  {
    if sig == [] {
      assert Bytes([]) + rest == rest;
    } else {
      var more := sig[1..];
      if sig[0].Side? {
        assert WireTypes(sig) == WireTypes(more);
        Injection(more, sides, args, be, rest);
        var (got, left) := GetTuple(more, sides, be, Bytes(Pack(WireTypes(more), args, be)) + rest);
        InjectedStep(sig, sides, args, sides[sig[0].i], got);
      } else {
        InjectionWire(sig, args, be, rest);
        var c1, c2 := Encode(sig[0].t, args[0], true, be), Pack(WireTypes(more), args[1..], be);
        Injection(more, sides, args[1..], be, Handover(c1, c2, rest));
        var (got, left) := GetTuple(more, sides, be, Bytes(c2) + Handover(c1, c2, rest));
        InjectedStep(sig, sides, args, args[0], got);
      }
    }
  }

  lemma RestTyped(t: Ty, ts: seq<Ty>, args: seq<Val>)
    requires HasType(VSeq(args), Tuple([t] + ts))
    ensures args != [] && HasType(args[0], t) && HasType(VSeq(args[1..]), Tuple(ts))
  {
    var us := [t] + ts;
    assert us[0] == t;
    forall i | 0 <= i < |ts|
      ensures HasType(args[1..][i], ts[i])
    {
      assert HasType(args[i + 1], us[i + 1]);
    }
  }

  lemma FirstWire(sig: seq<Param>, args: seq<Val>)
    requires sig != [] && sig[0].Wire? && HasType(VSeq(args), Tuple(WireTypes(sig)))
    ensures WireTypes(sig) == [sig[0].t] + WireTypes(sig[1..])
    ensures args != [] && HasType(args[0], sig[0].t) && HasType(VSeq(args[1..]), Tuple(WireTypes(sig[1..])))
  {
    var us := WireTypes(sig[1..]);
    assert WireTypes(sig) == [sig[0].t] + us;
    RestTyped(sig[0].t, us, args);
  }

  /** What is packed for the first wire parameter stands in front of what is packed for the others. */
  lemma PackFirst(t: Ty, ts: seq<Ty>, args: seq<Val>, be: bool)
    requires args != [] && HasType(args[0], t) && HasType(VSeq(args[1..]), Tuple(ts))
    requires HasType(VSeq(args), Tuple([t] + ts))
    ensures Pack([t] + ts, args, be) == Encode(t, args[0], true, be) + Pack(ts, args[1..], be)
  {
    var us := [t] + ts;
    assert us[0] == t && us[1..] == ts;
    assert EncodeItems(us, args, true, be) == Encode(t, args[0], true, be) + EncodeItems(ts, args[1..], true, be);
  }

  /** Reading the first wire parameter leaves what was packed for the others. */
  lemma InjectionWire(sig: seq<Param>, args: seq<Val>, be: bool, rest: seq<byte>)
    requires sig != [] && sig[0].Wire? && WellShaped(sig[0].t, true, true)
    requires HasType(VSeq(args), Tuple(WireTypes(sig)))
    ensures args != [] && HasType(VSeq(args[1..]), Tuple(WireTypes(sig[1..])))
    ensures var c, c2 := Pack(WireTypes(sig), args, be), Pack(WireTypes(sig[1..]), args[1..], be);
            var c1 := Encode(sig[0].t, args[0], true, be);
            && Decode(sig[0].t, true, be, Bytes(c) + rest) == (args[0], Bytes(c2) + Handover(c1, c2, rest))
            && Left(c2, Handover(c1, c2, rest)) == Left(c, rest)
  {
    FirstWire(sig, args);
    PackFirst(sig[0].t, WireTypes(sig[1..]), args, be);
    var c1, c2 := Encode(sig[0].t, args[0], true, be), Pack(WireTypes(sig[1..]), args[1..], be);
    EncodeSolid(Tuple(WireTypes(sig[1..])), VSeq(args[1..]), true, be);
    LeftAppend(c1, c2, rest);
    RoundTrip(sig[0].t, args[0], true, true, be, Bytes(c2) + rest);
  }

  /** The packed list is consumed exactly, unless it ends with an empty text and the stream with it. */
  lemma InjectionConsumesExact(sig: seq<Param>, sides: seq<Val>, args: seq<Val>, be: bool, rest: seq<byte>)
    requires forall p :: p in sig && p.Side? ==> p.i < |sides|
    requires forall p :: p in sig && p.Wire? ==> WellShaped(p.t, true, true)
    requires HasType(VSeq(args), Tuple(WireTypes(sig)))
    ensures var c := Pack(WireTypes(sig), args, be);
            GetTuple(sig, sides, be, Bytes(c) + rest).1 == rest <==> rest != [] || !EndsEmpty(c)
  {
    Injection(sig, sides, args, be, rest);
  }

  // ----------------------------------------------- which parameters are side values

  /** The type of a handler parameter: which it is, and how a value of it would be read. */
  datatype CType = CType(name: nat, shape: Ty)

  /** `tuple_index`: the position of the first side type that is this one; without one, as
      `tuple_contains` finds out, their number. */
  function SideIndex(name: nat, sideTypes: seq<nat>): (i: nat)
    ensures i <= |sideTypes| && (i < |sideTypes| <==> name in sideTypes)
    ensures i < |sideTypes| ==> sideTypes[i] == name && name !in sideTypes[..i]
  {
    if sideTypes == [] || sideTypes[0] == name then 0 else
      var i := SideIndex(name, sideTypes[1..]);
      assert i < |sideTypes| - 1 ==> sideTypes[..i + 1] == [sideTypes[0]] + sideTypes[1..][..i];
      i + 1
  }

  /** `get_tuple_elem` chooses by the type of the parameter. */
  function ParamOf(p: CType, sideTypes: seq<nat>): Param
  {
    if p.name in sideTypes then Side(SideIndex(p.name, sideTypes)) else Wire(p.shape)
  }

  function Resolve(params: seq<CType>, sideTypes: seq<nat>): (sig: seq<Param>)
    ensures |sig| == |params| && forall k :: 0 <= k < |params| ==> sig[k] == ParamOf(params[k], sideTypes)
    ensures forall p :: p in sig && p.Side? ==> p.i < |sideTypes|
  {
    if params == [] then [] else [ParamOf(params[0], sideTypes)] + Resolve(params[1..], sideTypes)
  }

  /** The number of parameters before position `k` whose types are not side types. */
  function FromClient(params: seq<CType>, sideTypes: seq<nat>, k: nat): nat
    requires k <= |params|
  {
    if k == 0 then 0 else (if params[0].name in sideTypes then 0 else 1) + FromClient(params[1..], sideTypes, k - 1)
  }

  lemma {:induction false} FromClientWires(params: seq<CType>, sideTypes: seq<nat>, k: nat)
    requires k <= |params|
    ensures WiresBefore(Resolve(params, sideTypes), k) == FromClient(params, sideTypes, k)
  {
    if k > 0 {
      assert Resolve(params, sideTypes)[1..] == Resolve(params[1..], sideTypes);
      FromClientWires(params[1..], sideTypes, k - 1);
    }
  }

  /** A parameter gets the first side value of its type, if there is one, and otherwise the next
      argument of the client. */
  ghost predicate ByType(params: seq<CType>, sideTypes: seq<nat>, sides: seq<Val>, args: seq<Val>, got: seq<Val>)
    requires |sides| == |sideTypes|
  {
    && |got| == |params|
    && (forall k, j: nat :: 0 <= k < |params| && FirstOf(params[k].name, sideTypes, j) ==> got[k] == sides[j])
    && forall k :: 0 <= k < |params| && params[k].name !in sideTypes ==>
         var n := FromClient(params, sideTypes, k); n < |args| && got[k] == args[n]
  }

  predicate FirstOf(name: nat, sideTypes: seq<nat>, j: nat)
  {
    j < |sideTypes| && sideTypes[j] == name && name !in sideTypes[..j]
  }

  lemma InjectionByType(params: seq<CType>, sideTypes: seq<nat>, sides: seq<Val>, args: seq<Val>, got: seq<Val>)
    requires |sides| == |sideTypes| && Injected(Resolve(params, sideTypes), sides, args, got)
    ensures ByType(params, sideTypes, sides, args, got)
  {
    forall k, j: nat | 0 <= k < |params| && FirstOf(params[k].name, sideTypes, j)
      ensures got[k] == sides[j]
    {
      assert j == SideIndex(params[k].name, sideTypes);
    }
    forall k | 0 <= k < |params| && params[k].name !in sideTypes
      ensures var n := FromClient(params, sideTypes, k); n < |args| && got[k] == args[n]
    {
      FromClientWires(params, sideTypes, k);
    }
  }
}
