/** Reading what was written gives the value back, and for which types it does. */
module GosRoundTrip {
  import opened GosCodec

  // ------------------------------------------------------------ stream facts

  lemma {:induction false} BytesAppend(a: seq<Chunk>, b: seq<Chunk>)
    ensures Bytes(a + b) == Bytes(a) + Bytes(b)
  {
    if a == [] {
      assert a + b == b;
    } else {
      assert (a + b)[1..] == a[1..] + b;
      BytesAppend(a[1..], b);
    }
  }

  lemma BytesOne(c: Chunk)
    ensures Bytes([c]) == ChunkBytes(c)
  {
    assert [c][1..] == [];
  }

  /** What is left of the stream after reading what was written as `cs`: everything that
      followed, except that an empty text at the very end of the stream is not consumed. */
  function Left(cs: seq<Chunk>, rest: seq<byte>): seq<byte>
  {
    if rest == [] && EndsEmpty(cs) then [0, 0] else rest
  }

  /** The last thing written is an empty text. */
  predicate EndsEmpty(cs: seq<Chunk>) { cs != [] && cs[|cs| - 1] == Text([]) }

  predicate Solid(cs: seq<Chunk>) { forall i :: 0 <= i < |cs| ==> ChunkBytes(cs[i]) != [] }

  lemma {:induction false} SolidBytes(cs: seq<Chunk>)
    requires Solid(cs)
    ensures Bytes(cs) == [] <==> cs == []
  {
    if cs != [] {
      assert ChunkBytes(cs[0]) != [];
    }
  }

  /** The stream a second reader of `c2` finds, seen as its own bytes and a rest. */
  function Handover(c1: seq<Chunk>, c2: seq<Chunk>, rest: seq<byte>): seq<byte>
  {
    if c2 == [] then Left(c1, rest) else rest
  }

  lemma LeftAppend(c1: seq<Chunk>, c2: seq<Chunk>, rest: seq<byte>)
    requires Solid(c2)
    ensures Bytes(c1 + c2) + rest == Bytes(c1) + (Bytes(c2) + rest)
    ensures Left(c1, Bytes(c2) + rest) == Bytes(c2) + Handover(c1, c2, rest)
    ensures Left(c2, Handover(c1, c2, rest)) == Left(c1 + c2, rest)
  {
    BytesAppend(c1, c2);
    Associative(Bytes(c1), Bytes(c2), rest);
    if c2 == [] {
      assert c1 + c2 == c1;
      assert Bytes(c2) + rest == rest && Bytes(c2) + Left(c1, rest) == Left(c1, rest);
    } else {
      SolidBytes(c2);
      LastOfAppend(c1, c2);
    }
  }

  lemma Associative(a: seq<byte>, b: seq<byte>, c: seq<byte>)
    ensures a + b + c == a + (b + c)
  {
  }

  lemma LastOfAppend(c1: seq<Chunk>, c2: seq<Chunk>)
    requires c2 != []
    ensures (c1 + c2)[|c1 + c2| - 1] == c2[|c2| - 1]
  {
  }

  lemma LengthBack(be: bool, n: nat, rest: seq<byte>)
    requires n < MAX_COUNT
    ensures ReadLength(be, Length(be, n) + rest) == (n, rest)
  {
    RawBack(Length(be, n), rest);
    SwappedBack(be, Little(n, 4));
    BelowPower(n);
    LittleBack(n, 4);
  }

  /** `k` bytes are enough for `n`. */
  predicate Fits(n: nat, k: nat) { if k == 0 then n == 0 else Fits(n / 256, k - 1) }

  lemma {:induction false} LittleBack(n: nat, k: nat)
    requires Fits(n, k)
    ensures Number(Little(n, k)) == n
  {
    if k > 0 {
      LittleBack(n / 256, k - 1);
      assert Little(n, k)[1..] == Little(n / 256, k - 1);
    }
  }

  lemma BelowPower(n: nat)
    ensures n < 0x1_0000 ==> Fits(n, 2)
    ensures n < 0x1_0000_0000 ==> Fits(n, 4)
  {
    var a, b := n / 256, n / 256 / 256;
    assert Fits(a, 1) == (a / 256 == 0);
    if n < 0x1_0000_0000 {
      assert b < 0x1_0000;
      assert Fits(b, 2) == Fits(b / 256, 1) == (b / 256 / 256 == 0);
    }
  }

  lemma {:induction false} ReversedSnoc(s: seq<byte>, b: byte)
    ensures Reversed(s + [b]) == [b] + Reversed(s)
  {
    if s == [] {
      assert Reversed([b][1..]) == [];
    } else {
      assert (s + [b])[1..] == s[1..] + [b];
      ReversedSnoc(s[1..], b);
    }
  }

  lemma {:induction false} ReversedTwice(s: seq<byte>)
    ensures Reversed(Reversed(s)) == s
  {
    if s != [] {
      ReversedSnoc(Reversed(s[1..]), s[0]);
      ReversedTwice(s[1..]);
    }
  }

  lemma SwappedBack(be: bool, s: seq<byte>)
    ensures Swapped(be, Swapped(be, s)) == s
  {
    ReversedTwice(s);
  }

  /** `r` is what stands before the first zero byte of `s`, or all of `s` if there is none. */
  predicate CutAtZero(r: seq<byte>, s: seq<byte>)
  {
    r <= s && 0 !in r && (|r| < |s| ==> s[|r|] == 0)
  }

  lemma {:induction false} ZeroCuts(s: seq<byte>)
    ensures CutAtZero(UpToZero(s), s)
    ensures UpToZero(s) == s <==> 0 !in s
  {
    if s != [] && s[0] != 0 {
      ZeroCuts(s[1..]);
      assert s == [s[0]] + s[1..];
    }
  }

  lemma ReadTextAt(s: seq<byte>, len: nat)
    requires |s| > 2 && Number(s[..2]) == len < MAX_TEXT && 2 + len <= |s|
    ensures ReadText(s) == (UpToZero(s[2..2 + len]), s[2 + len..])
  {
  }

  lemma TextAfterLength(h: seq<byte>, c: seq<byte>, rest: seq<byte>)
    requires |h| == 2 && |c| < MAX_TEXT && c + rest != [] && Number(h) == |c|
    ensures ReadText(h + c + rest) == (UpToZero(c), rest)
  {
    var s := h + c + rest;
    assert s[..2] == h && |s| == 2 + |c + rest|;
    assert s[2..2 + |c|] == c && s[2 + |c|..] == rest;
    ReadTextAt(s, |c|);
  }

  lemma TextBackInside(c: seq<byte>, rest: seq<byte>)
    requires |c| < MAX_TEXT && c + rest != []
    ensures ReadText(ChunkBytes(Text(c)) + rest) == (UpToZero(c), rest)
  {
    BelowPower(|c|);
    LittleBack(|c|, 2);
    TextAfterLength(Little(|c|, 2), c, rest);
  }

  lemma EmptyTextBack()
    ensures ReadText(ChunkBytes(Text([])) + []) == ([], [0, 0])
  {
    assert Little(0, 1) == [0] + Little(0, 0) == [0];
    assert Little(0, 2) == [0] + Little(0, 1) == [0, 0];
    assert ChunkBytes(Text([])) + [] == [0, 0];
  }

  lemma LeftAfterText(c: seq<byte>, rest: seq<byte>)
    ensures Left([Text(c)], rest) == if c == [] && rest == [] then [0, 0] else rest
  {
    assert Text(c) == Text([]) <==> c == [];
  }

  lemma TextBack(c: seq<byte>, rest: seq<byte>)
    requires |c| < MAX_TEXT
    ensures ReadText(ChunkBytes(Text(c)) + rest) == (UpToZero(c), Left([Text(c)], rest))
  {
    LeftAfterText(c, rest);
    if c == [] && rest == [] {
      EmptyTextBack();
    } else {
      assert c + rest != [] by {
        assert |c + rest| > 0;
      }
      TextBackInside(c, rest);
    }
  }

  /** A text of legal length comes back from `write_string` and `read_string` up to its first zero byte, and
      so survives exactly if it contains none. */
  lemma TextExact(c: seq<byte>, rest: seq<byte>)
    requires |c| < MAX_TEXT
    ensures CutAtZero(ReadText(ChunkBytes(Text(c)) + rest).0, c)
    ensures ReadText(ChunkBytes(Text(c)) + rest).0 == c <==> 0 !in c
  {
    TextBack(c, rest);
    ZeroCuts(c);
  }

  lemma RawBack(b: seq<byte>, rest: seq<byte>)
    ensures ReadValue(|b|, b + rest) == (b, rest)
  {
    assert (b + rest)[..|b|] == b && (b + rest)[|b|..] == rest;
  }

  // --------------------------------------------------------------- the shape

  /** Writer and reader agree on the key flag wherever it matters; `w` and `r` are the flags of
      the writer and of the reader at this point. */
  predicate WellShaped(t: Ty, w: bool, r: bool)
    decreases t
  {
    match t
    case Num(_) => true
    case Str => true
    case Opt(e) => WellShaped(e, w, true)
    case Struct(fs) => forall i :: 0 <= i < |fs| ==> WellShaped(fs[i], true, true)
    case Tuple(ts) => forall i :: 0 <= i < |ts| ==> WellShaped(ts[i], w, false)
    case List(e) => WellShaped(e, false, false)
    case Set(e, _) => WellShaped(e, false, false)
    case Arr(e, n) => n == 0 || WellShaped(e, false, false)
    case Map(k, e, _) => w && r && WellShaped(k, true, true) && WellShaped(e, true, true)
    case Pair(k, e) => w && r && WellShaped(k, true, true) && WellShaped(e, true, true)
  }

  // ----------------------------------------------------------- every chunk counts

  lemma {:induction false} EncodeSolid(t: Ty, v: Val, w: bool, be: bool)
    requires HasType(v, t)
    ensures Solid(Encode(t, v, w, be))
    decreases t, 2, 0
  {
    match t
    case Num(_) =>
    case Str =>
    case Opt(e) => if v.VSome? { EncodeSolid(e, v.value, w, be); }
    case Struct(fs) => ItemsSolid(fs, v.vals, true, be);
    case Tuple(ts) => ItemsSolid(ts, v.vals, w, be);
    case List(e) => AllSolid(e, v.vals, be);
    case Set(e, _) => AllSolid(e, v.vals, be);
    case Arr(e, _) => AllSolid(e, v.vals, be);
    case Map(_, _, _) => EntriesSolid(t, v.vals, w, be);
    case Pair(_, _) => EntrySolid(t, v, w, be);
  }

  lemma {:induction false} ItemsSolid(ts: seq<Ty>, vs: seq<Val>, w: bool, be: bool)
    requires |ts| == |vs| && forall i :: 0 <= i < |ts| ==> HasType(vs[i], ts[i])
    ensures Solid(EncodeItems(ts, vs, w, be))
    decreases ts, 3, 0
  {
    if ts != [] {
      EncodeSolid(ts[0], vs[0], w, be);
      ItemsSolid(ts[1..], vs[1..], w, be);
    }
  }

  lemma {:induction false} AllSolid(t: Ty, vs: seq<Val>, be: bool)
    requires forall x :: x in vs ==> HasType(x, t)
    ensures Solid(EncodeAll(t, vs, be))
    decreases t, 3, |vs|
  {
    if vs != [] {
      EncodeSolid(t, vs[0], false, be);
      AllSolid(t, vs[1..], be);
    }
  }

  lemma {:induction false} EntrySolid(t: Ty, p: Val, w: bool, be: bool)
    requires (t.Map? || t.Pair?) && IsEntry(p, t)
    ensures Solid(EncodeEntry(t, p, w, be))
    decreases t, 0, 0
  {
    EncodeSolid(t.key, p.first, true, be);
    EncodeSolid(t.elem, p.second, true, be);
  }

  lemma {:induction false} EntriesSolid(t: Ty, vs: seq<Val>, w: bool, be: bool)
    requires (t.Map? || t.Pair?) && forall x :: x in vs ==> IsEntry(x, t)
    ensures Solid(EncodeEntries(t, vs, w, be))
    decreases t, 1, |vs|
  {
    if vs != [] {
      EntrySolid(t, vs[0], w, be);
      EntriesSolid(t, vs[1..], w, be);
    }
  }

  // ------------------------------------------------------------- the round trip

  /** For every well-shaped type and every value of it, the reader recovers the value, whatever
      follows and for both endianness settings. */
  lemma {:induction false} RoundTrip(t: Ty, v: Val, w: bool, r: bool, be: bool, rest: seq<byte>)
    requires HasType(v, t) && WellShaped(t, w, r)
    ensures Decode(t, r, be, Bytes(Encode(t, v, w, be)) + rest) == (v, Left(Encode(t, v, w, be), rest))
    decreases t, 2, 0
  {
    match t
    case Num(_) =>
      BytesOne(Raw(v.bytes));
      RawBack(v.bytes, rest);
    case Str =>
      BytesOne(Text(v.chars));
      TextBack(v.chars, rest);
      ZeroCuts(v.chars);
    case Opt(e) =>
      if v.VNone? {
        BytesOne(Raw([1]));
        RawBack([1], rest);
      } else {
        EncodeSolid(e, v.value, w, be);
        PresentBack(Encode(e, v.value, w, be), rest);
        RoundTrip(e, v.value, w, true, be, rest);
      }
    case Struct(fs) => RoundTripItems(fs, v.vals, true, true, be, rest);
    case Tuple(ts) => RoundTripItems(ts, v.vals, w, false, be, rest);
    case Arr(e, _) =>
      assert Bytes([]) + rest == rest;
      if v.vals != [] {
        RoundTripAll(e, v.vals, be, rest);
      }
    case List(_) => RoundTripCounted(t, v, w, r, be, rest);
    case Set(_, _) => RoundTripCounted(t, v, w, r, be, rest);
    case Map(_, _, _) => RoundTripCounted(t, v, w, r, be, rest);
    case Pair(_, _) => RoundTripEntry(t, v, be, rest);
  }

  /** Containers that start with their count. */
  lemma {:induction false} RoundTripCounted(t: Ty, v: Val, w: bool, r: bool, be: bool, rest: seq<byte>)
    requires (t.List? || t.Set? || t.Map?) && HasType(v, t) && WellShaped(t, w, r)
    ensures Decode(t, r, be, Bytes(Encode(t, v, w, be)) + rest) == (v, Left(Encode(t, v, w, be), rest))
    decreases t, 1, |v.vals| + 1
  {
    assert [] + v.vals == v.vals;
    if t.Map? {
      EntriesSolid(t, v.vals, w, be);
      CountedBack(be, |v.vals|, EncodeEntries(t, v.vals, w, be), rest);
      RoundTripMap(t, v.vals, [], be, rest);
    } else {
      AllSolid(t.elem, v.vals, be);
      CountedBack(be, |v.vals|, EncodeAll(t.elem, v.vals, be), rest);
      if t.List? {
        RoundTripAll(t.elem, v.vals, be, rest);
      } else {
        RoundTripSet(t.elem, t.multi, v.vals, [], be, rest);
      }
    }
  }

  /** Reading leaves exactly what followed, unless nothing followed and the last thing written was an
      empty text: then its two length bytes stay unread. */
  lemma ConsumesExact(t: Ty, v: Val, w: bool, r: bool, be: bool, rest: seq<byte>)
    requires HasType(v, t) && WellShaped(t, w, r)
    ensures var c := Encode(t, v, w, be);
            Decode(t, r, be, Bytes(c) + rest).1 == rest <==> rest != [] || !EndsEmpty(c)
  {
    RoundTrip(t, v, w, r, be, rest);
  }

  /** The empty text alone is such a value. */
  lemma EmptyTextUnread(w: bool, r: bool, be: bool)
    ensures Decode(Str, r, be, Bytes(Encode(Str, VStr([]), w, be))) == (VStr([]), [0, 0])
  {
    BytesOne(Text([]));
    EmptyTextBack();
    assert ChunkBytes(Text([])) + [] == ChunkBytes(Text([]));
  }

  /** The flag of a present optional is read back and leaves its value. */
  lemma PresentBack(c: seq<Chunk>, rest: seq<byte>)
    requires Solid(c)
    ensures ReadValue(1, Bytes([Raw([0])] + c) + rest) == ([0], Bytes(c) + rest)
    ensures Left([Raw([0])] + c, rest) == Left(c, rest)
  {
    BytesOne(Raw([0]));
    LeftAppend([Raw([0])], c, rest);
    RawBack([0], Bytes(c) + rest);
  }

  /** A count in front of the elements is read back and leaves the elements. */
  lemma CountedBack(be: bool, n: nat, c: seq<Chunk>, rest: seq<byte>)
    requires n < MAX_COUNT && Solid(c)
    ensures ReadLength(be, Bytes([Raw(Length(be, n))] + c) + rest) == (n, Bytes(c) + rest)
    ensures Left([Raw(Length(be, n))] + c, rest) == Left(c, rest)
  {
    BytesOne(Raw(Length(be, n)));
    LeftAppend([Raw(Length(be, n))], c, rest);
    LengthBack(be, n, Bytes(c) + rest);
  }

  lemma {:induction false} RoundTripItems(ts: seq<Ty>, vs: seq<Val>, w: bool, r: bool, be: bool, rest: seq<byte>)
    requires |ts| == |vs| && forall i :: 0 <= i < |ts| ==> HasType(vs[i], ts[i])
    requires forall i :: 0 <= i < |ts| ==> WellShaped(ts[i], w, r)
    ensures DecodeItems(ts, r, be, Bytes(EncodeItems(ts, vs, w, be)) + rest)
            == (vs, Left(EncodeItems(ts, vs, w, be), rest))
    decreases ts, 3, 0
  {
    if ts == [] {
      assert Bytes([]) + rest == rest;
    } else {
      var c1, c2 := Encode(ts[0], vs[0], w, be), EncodeItems(ts[1..], vs[1..], w, be);
      ItemsSolid(ts[1..], vs[1..], w, be);
      LeftAppend(c1, c2, rest);
      RoundTrip(ts[0], vs[0], w, r, be, Bytes(c2) + rest);
      RoundTripItems(ts[1..], vs[1..], w, r, be, Handover(c1, c2, rest));
      assert [vs[0]] + vs[1..] == vs;
    }
  }

  lemma {:induction false} RoundTripAll(t: Ty, vs: seq<Val>, be: bool, rest: seq<byte>)
    requires (forall x :: x in vs ==> HasType(x, t)) && WellShaped(t, false, false)
    ensures DecodeAll(t, |vs|, be, Bytes(EncodeAll(t, vs, be)) + rest) == (vs, Left(EncodeAll(t, vs, be), rest))
    decreases t, 3, |vs|
  {
    if vs == [] {
      assert Bytes([]) + rest == rest;
    } else {
      var c1, c2 := Encode(t, vs[0], false, be), EncodeAll(t, vs[1..], be);
      AllSolid(t, vs[1..], be);
      LeftAppend(c1, c2, rest);
      RoundTrip(t, vs[0], false, false, be, Bytes(c2) + rest);
      RoundTripAll(t, vs[1..], be, Handover(c1, c2, rest));
      var s1 := Bytes(c2) + Handover(c1, c2, rest);
      OneMore(t, vs, be, Bytes(c1) + (Bytes(c2) + rest), s1, Left(c2, Handover(c1, c2, rest)));
    }
  }

  /** An element and then the others make the whole. */
  lemma OneMore(t: Ty, vs: seq<Val>, be: bool, s: seq<byte>, s1: seq<byte>, s2: seq<byte>)
    requires vs != [] && Decode(t, false, be, s) == (vs[0], s1) && DecodeAll(t, |vs| - 1, be, s1) == (vs[1..], s2)
    ensures DecodeAll(t, |vs|, be, s) == (vs, s2)
  {
    assert [vs[0]] + vs[1..] == vs;
  }

  lemma FreshElement(acc: seq<Val>, vs: seq<Val>, multi: bool)
    requires vs != [] && Elements(acc + vs, multi)
    ensures Insert(acc, vs[0], multi) == acc + [vs[0]] && acc + [vs[0]] + vs[1..] == acc + vs
  {
    assert (acc + vs)[|acc|] == vs[0];
    assert forall i :: 0 <= i < |acc| ==> (acc + vs)[i] == acc[i];
  }

  lemma FreshEntry(acc: seq<Val>, vs: seq<Val>, multi: bool)
    requires vs != [] && Entries(acc + vs, multi)
    ensures InsertEntry(acc, vs[0], multi) == acc + [vs[0]] && acc + [vs[0]] + vs[1..] == acc + vs
  {
    assert (acc + vs)[|acc|] == vs[0];
    assert forall i :: 0 <= i < |acc| ==> (acc + vs)[i] == acc[i];
  }

  lemma {:induction false} RoundTripSet(t: Ty, multi: bool, vs: seq<Val>, acc: seq<Val>, be: bool, rest: seq<byte>)
    requires (forall x :: x in vs ==> HasType(x, t)) && WellShaped(t, false, false) && Elements(acc + vs, multi)
    ensures DecodeSet(t, multi, |vs|, be, Bytes(EncodeAll(t, vs, be)) + rest, acc)
            == (acc + vs, Left(EncodeAll(t, vs, be), rest))
    decreases t, 3, |vs|
  {
    if vs == [] {
      assert Bytes([]) + rest == rest && acc + vs == acc;
    } else {
      var c1, c2 := Encode(t, vs[0], false, be), EncodeAll(t, vs[1..], be);
      AllSolid(t, vs[1..], be);
      LeftAppend(c1, c2, rest);
      RoundTrip(t, vs[0], false, false, be, Bytes(c2) + rest);
      FreshElement(acc, vs, multi);
      RoundTripSet(t, multi, vs[1..], acc + [vs[0]], be, Handover(c1, c2, rest));
    }
  }

  lemma {:induction false} RoundTripEntry(t: Ty, p: Val, be: bool, rest: seq<byte>)
    requires (t.Map? || t.Pair?) && IsEntry(p, t) && WellShaped(t, true, true)
    ensures DecodeEntry(t, true, be, Bytes(EncodeEntry(t, p, true, be)) + rest)
            == (p, Left(EncodeEntry(t, p, true, be), rest))
    decreases t, 0, 0
  {
    var c1, c2 := Encode(t.key, p.first, true, be), Encode(t.elem, p.second, true, be);
    EncodeSolid(t.elem, p.second, true, be);
    LeftAppend(c1, c2, rest);
    RoundTrip(t.key, p.first, true, true, be, Bytes(c2) + rest);
    RoundTrip(t.elem, p.second, true, true, be, Handover(c1, c2, rest));
  }

  lemma {:induction false} RoundTripMap(t: Ty, vs: seq<Val>, acc: seq<Val>, be: bool, rest: seq<byte>)
    requires t.Map? && (forall x :: x in vs ==> IsEntry(x, t)) && WellShaped(t, true, true)
    requires Entries(acc + vs, t.multi)
    ensures DecodeMap(t, |vs|, true, be, Bytes(EncodeEntries(t, vs, true, be)) + rest, acc)
            == (acc + vs, Left(EncodeEntries(t, vs, true, be), rest))
    decreases t, 1, |vs|
  {
    if vs == [] {
      assert Bytes([]) + rest == rest && acc + vs == acc;
    } else {
      var c1, c2 := EncodeEntry(t, vs[0], true, be), EncodeEntries(t, vs[1..], true, be);
      EntriesSolid(t, vs[1..], true, be);
      LeftAppend(c1, c2, rest);
      RoundTripEntry(t, vs[0], be, Bytes(c2) + rest);
      FreshEntry(acc, vs, t.multi);
      RoundTripMap(t, vs[1..], acc + [vs[0]], be, Handover(c1, c2, rest));
    }
  }
}
