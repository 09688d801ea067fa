/** What the reader makes of bytes that no value of its type was written as: repeated elements and
    keys, and streams that end too early. */
module GosForeign {
  import opened GosCodec
  import opened GosRoundTrip
  import opened GosWire

  // ------------------------------------------------------------ repeated elements

  /** The elements a set ends up with after those in `acc`. */
  function Kept(acc: seq<Val>, vs: seq<Val>): seq<Val>
    decreases |vs|
  {
    if vs == [] then acc else Kept(Insert(acc, vs[0], false), vs[1..])
  }

  /** The first position of an element. */
  function First(vs: seq<Val>, x: Val): (i: nat)
    requires x in vs
    ensures i < |vs| && vs[i] == x && x !in vs[..i]
  {
    if vs[0] == x then 0 else
      var i := First(vs[1..], x);
      assert vs[..i + 1] == [vs[0]] + vs[1..][..i];
      i + 1
  }

  /** Each element once, in the order of first occurrence. */
  ghost predicate KeepsFirst(r: seq<Val>, vs: seq<Val>)
  {
    && Distinct(r) && (forall x :: x in r <==> x in vs)
    && forall i, j :: 0 <= i < j < |r| ==> First(vs, r[i]) < First(vs, r[j])
  }

  lemma FirstOfPrefix(vs: seq<Val>, v: Val, x: Val)
    requires x in vs
    ensures First(vs + [v], x) == First(vs, x)
  {
    var i := First(vs, x);
    assert (vs + [v])[i] == x && (vs + [v])[..i] == vs[..i];
  }

  lemma InsertKeepsFirst(acc: seq<Val>, before: seq<Val>, v: Val)
    requires KeepsFirst(acc, before)
    ensures KeepsFirst(Insert(acc, v, false), before + [v])
  {
    var r, vs := Insert(acc, v, false), before + [v];
    assert forall x :: x in vs <==> x in before || x == v;
    assert v in acc <==> v in before;
    assert forall x :: x in r <==> x in vs;
    forall i, j | 0 <= i < j < |r|
      ensures First(vs, r[i]) < First(vs, r[j])
    {
      assert r[i] in before;
      FirstOfPrefix(before, v, r[i]);
      if r[j] in before {
        assert r[j] == acc[j] && r[i] == acc[i];
        FirstOfPrefix(before, v, r[j]);
      }
    }
  }

  lemma {:induction false} KeptKeepsFirst(acc: seq<Val>, before: seq<Val>, vs: seq<Val>)
    requires KeepsFirst(acc, before)
    ensures KeepsFirst(Kept(acc, vs), before + vs)
    decreases |vs|
  {
    if vs == [] {
      assert before + vs == before;
    } else {
      InsertKeepsFirst(acc, before, vs[0]);
      KeptKeepsFirst(Insert(acc, vs[0], false), before + [vs[0]], vs[1..]);
      assert before + [vs[0]] + vs[1..] == before + vs;
    }
  }

  lemma {:induction false} ReadsKept(t: Ty, vs: seq<Val>, acc: seq<Val>, be: bool, rest: seq<byte>)
    requires (forall x :: x in vs ==> HasType(x, t)) && WellShaped(t, false, false)
    ensures DecodeSet(t, false, |vs|, be, Bytes(EncodeAll(t, vs, be)) + rest, acc).0 == Kept(acc, vs)
    decreases |vs|
  {
    if vs != [] {
      ReadsOne(t, vs, acc, be, rest);
      ReadsKept(t, vs[1..], Insert(acc, vs[0], false), be,
                Handover(Encode(t, vs[0], false, be), EncodeAll(t, vs[1..], be), rest));
    }
  }

  /** The first element is read and inserted. */
  lemma ReadsOne(t: Ty, vs: seq<Val>, acc: seq<Val>, be: bool, rest: seq<byte>)
    requires vs != [] && (forall x :: x in vs ==> HasType(x, t)) && WellShaped(t, false, false)
    ensures var c1, c2 := Encode(t, vs[0], false, be), EncodeAll(t, vs[1..], be);
            DecodeSet(t, false, |vs|, be, Bytes(EncodeAll(t, vs, be)) + rest, acc)
            == DecodeSet(t, false, |vs| - 1, be, Bytes(c2) + Handover(c1, c2, rest), Insert(acc, vs[0], false))
  {
    var c1, c2 := Encode(t, vs[0], false, be), EncodeAll(t, vs[1..], be);
    AllSolid(t, vs[1..], be);
    LeftAppend(c1, c2, rest);
    RoundTrip(t, vs[0], false, false, be, Bytes(c2) + rest);
  }

  lemma CountedSet(e: Ty, n: nat, c: seq<Chunk>, r: bool, be: bool, rest: seq<byte>)
    requires n < MAX_COUNT && Solid(c)
    ensures Decode(Set(e, false), r, be, Bytes([Raw(Length(be, n))] + c) + rest).0
            == VSeq(DecodeSet(e, false, n, be, Bytes(c) + rest, []).0)
  {
    CountedBack(be, n, c, rest);
  }

  /** A list read as a set keeps the first occurrence of each element ... */
  lemma ListAsSet(e: Ty, vs: seq<Val>, w: bool, r: bool, be: bool, rest: seq<byte>)
    requires HasType(VSeq(vs), List(e)) && WellShaped(e, false, false)
    ensures Decode(Set(e, false), r, be, Bytes(Encode(List(e), VSeq(vs), w, be)) + rest).0 == VSeq(Kept([], vs))
    ensures KeepsFirst(Kept([], vs), vs)
  {
    AllSolid(e, vs, be);
    CountedSet(e, |vs|, EncodeAll(e, vs, be), r, be, rest);
    ReadsKept(e, vs, [], be, rest);
    KeptKeepsFirst([], [], vs);
    assert [] + vs == vs;
  }

  /** ... and read as a multiset it keeps all. */
  lemma ListAsMultiset(e: Ty, vs: seq<Val>, w: bool, r: bool, be: bool, rest: seq<byte>)
    requires HasType(VSeq(vs), List(e)) && WellShaped(e, false, false)
    ensures Decode(Set(e, true), r, be, Bytes(Encode(List(e), VSeq(vs), w, be)) + rest).0 == VSeq(vs)
  {
    RoundTrip(Set(e, true), VSeq(vs), w, r, be, rest);
    assert Encode(Set(e, true), VSeq(vs), w, be) == Encode(List(e), VSeq(vs), w, be);
  }

  // ---------------------------------------------------------------- repeated keys

  function KeptEntries(vs: seq<Val>): seq<Val>
  {
    if vs == [] then [] else InsertEntry(KeptEntries(vs[..|vs| - 1]), vs[|vs| - 1], false)
  }

  predicate AllPairs(vs: seq<Val>) { forall x :: x in vs ==> x.VPair? }

  /** No entry before the i-th has its key. */
  predicate NewKey(vs: seq<Val>, i: nat)
    requires i < |vs| && AllPairs(vs)
  {
    forall j :: 0 <= j < i ==> vs[j].first != vs[i].first
  }

  /** Each key once, with the first entry that has it. */
  predicate KeepsFirstEntries(r: seq<Val>, vs: seq<Val>)
    requires AllPairs(vs)
  {
    && DistinctKeys(r)
    && (forall i :: 0 <= i < |vs| && NewKey(vs, i) ==> vs[i] in r)
    && forall p :: p in r ==> exists i :: 0 <= i < |vs| && vs[i] == p && NewKey(vs, i)
  }

  lemma SomeNewKey(vs: seq<Val>, i: nat) returns (j: nat)
    requires AllPairs(vs) && i < |vs|
    ensures j <= i && vs[j].first == vs[i].first && NewKey(vs, j)
  {
    j := 0;
    while vs[j].first != vs[i].first
      invariant j <= i && forall k :: 0 <= k < j ==> vs[k].first != vs[i].first
      decreases i - j
    {
      j := j + 1;
    }
  }

  /** The last entry is inserted exactly if its key is new. */
  lemma LastInserted(before: seq<Val>, v: Val, r: seq<Val>)
    requires AllPairs(before + [v]) && KeepsFirstEntries(r, before)
    ensures InsertEntry(r, v, false) == if NewKey(before + [v], |before|) then r + [v] else r
  {
    var vs := before + [v];
    if NewKey(vs, |before|) {
      forall q | q in r
        ensures q.first != v.first
      {
        var i :| 0 <= i < |before| && before[i] == q && NewKey(before, i);
        assert vs[i] == q;
      }
    } else {
      var k :| 0 <= k < |before| && vs[k].first == v.first;
      var j := SomeNewKey(before, k);
      assert before[j] in r && before[j].VPair? && before[j].first == v.first;
    }
  }

  lemma {:induction false} KeptEntriesFirst(vs: seq<Val>)
    requires AllPairs(vs)
    ensures KeepsFirstEntries(KeptEntries(vs), vs)
  {
    if vs != [] {
      var n := |vs| - 1;
      var before, v := vs[..n], vs[n];
      assert vs == before + [v];
      KeptEntriesFirst(before);
      LastInserted(before, v, KeptEntries(before));
      EntriesStep(before, v, KeptEntries(before), KeptEntries(vs));
    }
  }

  lemma EntriesStep(before: seq<Val>, v: Val, r: seq<Val>, r': seq<Val>)
    requires AllPairs(before + [v]) && KeepsFirstEntries(r, before)
    requires r' == if NewKey(before + [v], |before|) then r + [v] else r
    ensures KeepsFirstEntries(r', before + [v])
  {
    var vs := before + [v];
    forall p | p in r'
      ensures exists i :: 0 <= i < |vs| && vs[i] == p && NewKey(vs, i)
    {
      if p in r {
        var i :| 0 <= i < |before| && before[i] == p && NewKey(before, i);
        assert forall j :: 0 <= j <= i ==> vs[j] == before[j];
        assert NewKey(vs, i);
      } else {
        assert vs[|before|] == p;
      }
    }
    forall i | 0 <= i < |vs| && NewKey(vs, i)
      ensures vs[i] in r'
    {
      assert forall j :: 0 <= j < |before| ==> vs[j] == before[j];
      if i < |before| {
        assert NewKey(before, i);
      }
    }
    if NewKey(vs, |before|) {
      forall q | q in r
        ensures q.VPair? && q.first != v.first
      {
        var i :| 0 <= i < |before| && before[i] == q && NewKey(before, i);
        assert vs[i] == q;
      }
    }
  }

  lemma {:induction false} ReadsKeptEntries(t: Ty, vs: seq<Val>, i: nat, be: bool, rest: seq<byte>)
    requires t.Map? && !t.multi && i <= |vs| && (forall x :: x in vs ==> IsEntry(x, t)) && WellShaped(t, true, true)
    ensures DecodeMap(t, |vs| - i, true, be, Bytes(EncodeEntries(t, vs[i..], true, be)) + rest, KeptEntries(vs[..i])).0
            == KeptEntries(vs)
    decreases |vs| - i
  {
    if i == |vs| {
      assert vs[..i] == vs;
    } else {
      var c1, c2 := EncodeEntry(t, vs[i], true, be), EncodeEntries(t, vs[i + 1..], true, be);
      assert vs[i..][1..] == vs[i + 1..] && vs[..i + 1][..i] == vs[..i];
      EntriesSolid(t, vs[i + 1..], true, be);
      LeftAppend(c1, c2, rest);
      RoundTripEntry(t, vs[i], be, Bytes(c2) + rest);
      ReadsKeptEntries(t, vs, i + 1, be, Handover(c1, c2, rest));
    }
  }

  lemma {:induction false} SameEntries(k: Ty, e: Ty, vs: seq<Val>, be: bool)
    requires forall x :: x in vs ==> IsEntry(x, Map(k, e, true))
    ensures forall x :: x in vs ==> IsEntry(x, Map(k, e, false))
    ensures EncodeEntries(Map(k, e, true), vs, true, be) == EncodeEntries(Map(k, e, false), vs, true, be)
  {
    if vs != [] {
      SameEntries(k, e, vs[1..], be);
    }
  }

  /** A multimap read as a map keeps the first entry of each key. */
  lemma MultimapAsMap(k: Ty, e: Ty, vs: seq<Val>, be: bool, rest: seq<byte>)
    requires HasType(VSeq(vs), Map(k, e, true)) && WellShaped(Map(k, e, true), true, true)
    ensures var s := Bytes(Encode(Map(k, e, true), VSeq(vs), true, be)) + rest;
            && Decode(Map(k, e, true), true, be, s).0 == VSeq(vs)
            && var got := Decode(Map(k, e, false), true, be, s).0; got.VSeq? && KeepsFirstEntries(got.vals, vs)
  {
    var t := Map(k, e, false);
    RoundTrip(Map(k, e, true), VSeq(vs), true, true, be, rest);
    SameEntries(k, e, vs, be);
    EntriesSolid(t, vs, true, be);
    CountedBack(be, |vs|, EncodeEntries(t, vs, true, be), rest);
    assert vs[0..] == vs && vs[..0] == [];
    ReadsKeptEntries(t, vs, 0, be, rest);
    KeptEntriesFirst(vs);
  }

  // ------------------------------------------------------------- any count, any flag

  /** Four bytes are read as a signed int, whatever they are, and converted to `size_t`. */
  lemma CountRead(be: bool, c: seq<byte>, rest: seq<byte>)
    requires |c| == 4
    ensures var v := if be then Sum(c[3], c[2], c[1], c[0]) else Sum(c[0], c[1], c[2], c[3]);
            var signed := if v < 0x8000_0000 then v else v - 0x1_0000_0000;
            ReadLength(be, c + rest) == (signed % 0x1_0000_0000_0000_0000, rest)
  {
    FourBytes(c);
    FourBytes(Swapped(be, c));
    RawBack(c, rest);
  }

  /** Any flag byte but 0 means an absent optional. */
  lemma FlagRead(e: Ty, flag: byte, r: bool, be: bool, rest: seq<byte>)
    ensures Decode(Opt(e), r, be, [flag] + rest) ==
            if flag != 0 then (VNone, rest)
            else (VSome(Decode(e, true, be, rest).0), Decode(e, true, be, rest).1)
  {
    RawBack([flag], rest);
  }

  // --------------------------------------------------------------- short streams

  /** A stream that ends too early leaves a number or a text as it was, and keeps its bytes. */
  lemma TooShort(w: nat, r: bool, be: bool, s: seq<byte>)
    ensures |s| < w ==> Decode(Num(w), r, be, s) == (VNum(seq(w, _ => 0)), s)
    ensures |s| <= 2 ==> Decode(Str, r, be, s) == (VStr([]), s)
  {
  }

  /** From an exhausted stream every container reads as empty, and an optional as present. */
  lemma Exhausted(t: Ty, r: bool, be: bool)
    ensures t.List? || t.Set? || t.Map? ==> Decode(t, r, be, []) == (VSeq([]), [])
    ensures t.Opt? ==> Decode(t, r, be, []) == (VSome(Decode(t.elem, true, be, []).0), Decode(t.elem, true, be, []).1)
  {
    ZeroCount(be);
    assert Zeros(1) == [0];
  }

  lemma {:induction false} ZeroNumber(n: nat)
    ensures Number(Zeros(n)) == 0 && Reversed(Zeros(n)) == Zeros(n)
  {
    if n > 0 {
      assert Zeros(n)[1..] == Zeros(n - 1);
      ZeroNumber(n - 1);
      assert Zeros(n - 1) + [0] == Zeros(n);
    }
  }

  lemma ZeroCount(be: bool)
    ensures ReadLength(be, []) == (0, [])
  {
    ZeroNumber(4);
  }
}
