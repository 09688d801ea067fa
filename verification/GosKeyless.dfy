/** What becomes of pairs and maps that are written and read without their keys.  Elements of a
    container are written and read with the `BeginObject` flag off, and then `WriteKV` and `ReadKV`
    pass over the keys (which C++ accepts only of keys that convert to a string). */
module GosKeyless {
  import opened GosCodec
  import opened GosRoundTrip

  /** A value-initialized object: numbers are zero, texts and containers empty, optionals absent. */
  predicate Initial(v: Val, t: Ty)
    decreases t
  {
    match t
    case Num(w) => v.VNum? && |v.bytes| == w && forall b :: b in v.bytes ==> b == 0
    case Str => v == VStr([])
    case Opt(_) => v == VNone
    case Struct(fs) => v.VSeq? && |v.vals| == |fs| && forall i :: 0 <= i < |fs| ==> Initial(v.vals[i], fs[i])
    case Tuple(ts) => v.VSeq? && |v.vals| == |ts| && forall i :: 0 <= i < |ts| ==> Initial(v.vals[i], ts[i])
    case List(_) => v == VSeq([])
    case Set(_, _) => v == VSeq([])
    case Map(_, _, _) => v == VSeq([])
    case Arr(e, n) => v.VSeq? && |v.vals| == n && forall x :: x in v.vals ==> Initial(x, e)
    case Pair(k, e) => v.VPair? && Initial(v.first, k) && Initial(v.second, e)
  }

  lemma {:induction false} DefaultInitial(t: Ty)
    ensures Initial(Default(t), t)
    decreases t, 0
  {
    match t
    case Struct(fs) => DefaultsInitial(fs);
    case Tuple(ts) => DefaultsInitial(ts);
    case Arr(e, _) => DefaultInitial(e);
    case Pair(k, e) =>
      DefaultInitial(k);
      DefaultInitial(e);
    case _ =>
  }

  lemma {:induction false} DefaultsInitial(ts: seq<Ty>)
    ensures |Defaults(ts)| == |ts| && forall i :: 0 <= i < |ts| ==> Initial(Defaults(ts)[i], ts[i])
    decreases ts, 1
  {
    if ts != [] {
      DefaultInitial(ts[0]);
      DefaultsInitial(ts[1..]);
    }
  }

  /** `r` has the second halves of `vs`, each with a value-initialized key. */
  predicate OnlyValues(r: seq<Val>, vs: seq<Val>, k: Ty)
  {
    |r| == |vs| && forall i :: 0 <= i < |r| ==> OnlyValue(r[i], vs[i], k)
  }

  predicate OnlyValue(q: Val, p: Val, k: Ty)
  {
    q.VPair? && p.VPair? && Initial(q.first, k) && q.second == p.second
  }

  /** One entry comes back with the initial key. */
  lemma EntryRead(t: Ty, p: Val, be: bool, rest: seq<byte>)
    requires (t.Map? || t.Pair?) && IsEntry(p, t) && WellShaped(t.elem, true, true)
    ensures Solid(EncodeEntry(t, p, false, be))
    ensures DecodeEntry(t, false, be, Bytes(EncodeEntry(t, p, false, be)) + rest)
            == (VPair(Default(t.key), p.second), Left(EncodeEntry(t, p, false, be), rest))
  {
    assert EncodeEntry(t, p, false, be) == Encode(t.elem, p.second, true, be);
    EncodeSolid(t.elem, p.second, true, be);
    RoundTrip(t.elem, p.second, true, true, be, rest);
  }

  lemma OneMorePair(t: Ty, n: nat, be: bool, s: seq<byte>, p: Val, s1: seq<byte>)
    requires n > 0 && Decode(t, false, be, s) == (p, s1)
    ensures DecodeAll(t, n, be, s).0 == [p] + DecodeAll(t, n - 1, be, s1).0
  {
  }

  /** The elements of a list of pairs. */
  lemma {:induction false} PairsRead(t: Ty, vs: seq<Val>, be: bool, rest: seq<byte>)
    requires t.Pair? && (forall x :: x in vs ==> HasType(x, t)) && WellShaped(t.elem, true, true)
    ensures OnlyValues(DecodeAll(t, |vs|, be, Bytes(EncodeAll(t, vs, be)) + rest).0, vs, t.key)
    decreases |vs|
  {
    if vs != [] {
      assert HasType(vs[0], t);
      var c1, c2 := EncodeEntry(t, vs[0], false, be), EncodeAll(t, vs[1..], be);
      AllSolid(t, vs[1..], be);
      LeftAppend(c1, c2, rest);
      EntryRead(t, vs[0], be, Bytes(c2) + rest);
      var s1 := Bytes(c2) + Handover(c1, c2, rest);
      PairsRead(t, vs[1..], be, Handover(c1, c2, rest));
      DefaultInitial(t.key);
      OneMorePair(t, |vs|, be, Bytes(c1) + (Bytes(c2) + rest), VPair(Default(t.key), vs[0].second), s1);
    }
  }

  /** A list of pairs keeps the second halves of its elements, in order, and loses the first ones. */
  lemma PairsLoseKeys(k: Ty, e: Ty, vs: seq<Val>, w: bool, r: bool, be: bool, rest: seq<byte>)
    requires HasType(VSeq(vs), List(Pair(k, e))) && WellShaped(e, true, true)
    ensures var got := Decode(List(Pair(k, e)), r, be, Bytes(Encode(List(Pair(k, e)), VSeq(vs), w, be)) + rest).0;
            got.VSeq? && OnlyValues(got.vals, vs, k)
  {
    var c := EncodeAll(Pair(k, e), vs, be);
    AllSolid(Pair(k, e), vs, be);
    CountedBack(be, |vs|, c, rest);
    PairsRead(Pair(k, e), vs, be, rest);
  }

  lemma Inserted(acc: seq<Val>, p: Val, v: Val, k: Ty, multi: bool)
    requires v.VPair? && p == VPair(Default(k), v.second)
    requires multi || acc == [] || (|acc| == 1 && acc[0].VPair? && acc[0].first == Default(k))
    ensures InsertEntry(acc, p, multi) == if multi || acc == [] then acc + [p] else acc
    ensures OnlyValues([p], [v], k)
  {
    DefaultInitial(k);
  }

  /** Further entries join a multimap, and are dropped by a map that holds the initial key. */
  lemma {:induction false} EntriesRead(t: Ty, vs: seq<Val>, acc: seq<Val>, be: bool, rest: seq<byte>)
    requires t.Map? && (forall x :: x in vs ==> IsEntry(x, t)) && WellShaped(t.elem, true, true)
    requires t.multi || acc == [] || (|acc| == 1 && acc[0].VPair? && acc[0].first == Default(t.key))
    ensures var got := DecodeMap(t, |vs|, false, be, Bytes(EncodeEntries(t, vs, false, be)) + rest, acc).0;
            && (t.multi ==> acc <= got && OnlyValues(got[|acc|..], vs, t.key))
            && (!t.multi ==> if acc != [] || vs == [] then got == acc else OnlyValues(got, vs[..1], t.key))
    decreases |vs|
  {
    if vs != [] {
      var c1, c2 := EncodeEntry(t, vs[0], false, be), EncodeEntries(t, vs[1..], false, be);
      EntriesSolid(t, vs[1..], false, be);
      LeftAppend(c1, c2, rest);
      EntryRead(t, vs[0], be, Bytes(c2) + rest);
      var p := VPair(Default(t.key), vs[0].second);
      Inserted(acc, p, vs[0], t.key, t.multi);
      EntriesRead(t, vs[1..], InsertEntry(acc, p, t.multi), be, Handover(c1, c2, rest));
    }
  }

  /** A map inside a container comes back with no more than its first value, under the initial key; a
      multimap with all its values under that key. */
  lemma MapsCollapse(t: Ty, vs: seq<Val>, be: bool, rest: seq<byte>)
    requires t.Map? && HasType(VSeq(vs), t) && WellShaped(t.elem, true, true)
    ensures var got := Decode(t, false, be, Bytes(Encode(t, VSeq(vs), false, be)) + rest).0;
            got.VSeq? && OnlyValues(got.vals, if t.multi || vs == [] then vs else vs[..1], t.key)
  {
    var c := EncodeEntries(t, vs, false, be);
    EntriesSolid(t, vs, false, be);
    CountedBack(be, |vs|, c, rest);
    EntriesRead(t, vs, [], be, rest);
  }
}
