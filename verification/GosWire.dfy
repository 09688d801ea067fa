/** The layout of the binary format, byte by byte: what the writer puts on the wire, told without the
    writer. */
module GosWire {
  import opened GosCodec
  import opened GosRoundTrip

  // ------------------------------------------------------------------- the layout

  /** The number with these bytes, the lowest first. */
  function Sum(a: int, b: int, c: int, d: int): int { a + 0x100 * b + 0x1_0000 * c + 0x100_0000 * d }

  /** Four bytes as a 32-bit count: in the order of the little-endian host, or in network order. */
  predicate CountIs(c: seq<byte>, n: nat, be: bool)
  {
    && |c| == 4
    && n == if be then Sum(c[3], c[2], c[1], c[0]) else Sum(c[0], c[1], c[2], c[3])
  }

  /** The bytes `b` are those of the value: a number as its object bytes, a text behind its length in two
      bytes of host order, an optional behind one byte that is 1 exactly for null, a container behind its
      count, fields, items and elements one after another, an entry as its key, if keys are written,
      and its value. */
  ghost predicate LaidOut(t: Ty, v: Val, key: bool, be: bool, b: seq<byte>)
    requires HasType(v, t)
    decreases t, 2, 0
  {
    match t
    case Num(_) => b == v.bytes
    case Str => |b| >= 2 && Sum(b[0], b[1], 0, 0) == |v.chars| && b[2..] == v.chars
    case Opt(e) =>
      if v.VNone? then b == [1] else |b| >= 1 && b[0] == 0 && LaidOut(e, v.value, key, be, b[1..])
    case Struct(fs) => ItemsLaidOut(fs, v.vals, true, be, b)
    case Tuple(ts) => ItemsLaidOut(ts, v.vals, key, be, b)
    case List(e) => |b| >= 4 && CountIs(b[..4], |v.vals|, be) && AllLaidOut(e, v.vals, be, b[4..])
    case Set(e, _) => |b| >= 4 && CountIs(b[..4], |v.vals|, be) && AllLaidOut(e, v.vals, be, b[4..])
    case Map(_, _, _) => |b| >= 4 && CountIs(b[..4], |v.vals|, be) && EntriesLaidOut(t, v.vals, key, be, b[4..])
    case Arr(e, _) => AllLaidOut(e, v.vals, be, b)
    case Pair(_, _) => EntryLaidOut(t, v, key, be, b)
  }

  ghost predicate ItemsLaidOut(ts: seq<Ty>, vs: seq<Val>, key: bool, be: bool, b: seq<byte>)
    requires |ts| == |vs| && forall i :: 0 <= i < |ts| ==> HasType(vs[i], ts[i])
    decreases ts, 3, 0
  {
    if ts == [] then b == []
    else exists k :: 0 <= k <= |b| && LaidOut(ts[0], vs[0], key, be, b[..k])
                     && ItemsLaidOut(ts[1..], vs[1..], key, be, b[k..])
  }

  ghost predicate AllLaidOut(t: Ty, vs: seq<Val>, be: bool, b: seq<byte>)
    requires forall x :: x in vs ==> HasType(x, t)
    decreases t, 3, |vs|
  {
    if vs == [] then b == []
    else exists k :: 0 <= k <= |b| && LaidOut(t, vs[0], false, be, b[..k]) && AllLaidOut(t, vs[1..], be, b[k..])
  }

  ghost predicate EntryLaidOut(t: Ty, p: Val, key: bool, be: bool, b: seq<byte>)
    requires (t.Map? || t.Pair?) && IsEntry(p, t)
    decreases t, 0, 0
  {
    if !key then LaidOut(t.elem, p.second, true, be, b)
    else exists k :: 0 <= k <= |b| && LaidOut(t.key, p.first, true, be, b[..k])
                     && LaidOut(t.elem, p.second, true, be, b[k..])
  }

  ghost predicate EntriesLaidOut(t: Ty, vs: seq<Val>, key: bool, be: bool, b: seq<byte>)
    requires (t.Map? || t.Pair?) && forall x :: x in vs ==> IsEntry(x, t)
    decreases t, 1, |vs|
  {
    if vs == [] then b == []
    else exists k :: 0 <= k <= |b| && EntryLaidOut(t, vs[0], key, be, b[..k])
                     && EntriesLaidOut(t, vs[1..], key, be, b[k..])
  }

  // ---------------------------------------------------------------------- numbers

  lemma {:induction false} NumberInjective(s: seq<byte>, t: seq<byte>)
    requires |s| == |t| && Number(s) == Number(t)
    ensures s == t
  {
    if s != [] {
      NumberInjective(s[1..], t[1..]);
      assert s == [s[0]] + s[1..] && t == [t[0]] + t[1..];
    }
  }

  lemma TwoBytes(s: seq<byte>)
    requires |s| == 2
    ensures Number(s) == Sum(s[0], s[1], 0, 0)
  {
    assert s[1..][1..] == [] && Number(s[1..]) == s[1];
  }

  lemma FourBytes(s: seq<byte>)
    requires |s| == 4
    ensures Number(s) == Sum(s[0], s[1], s[2], s[3])
    ensures Reversed(s) == [s[3], s[2], s[1], s[0]]
  {
    TwoBytes(s[2..]);
    assert s[1..][1..] == s[2..] && s[2..][1..] == s[3..] && s[3..][1..] == [];
    assert Number(s[1..]) == s[1] + 0x100 * Number(s[2..]);
    assert Reversed(s[3..]) == [s[3]] && Reversed(s[2..]) == [s[3]] + [s[2]];
    assert Reversed(s[1..]) == Reversed(s[2..]) + [s[1]];
  }

  /** Exactly the four bytes `write_int(gos_hton(n))` writes are the count `n`. */
  lemma CountExact(c: seq<byte>, n: nat, be: bool)
    requires n < MAX_COUNT
    ensures CountIs(c, n, be) <==> c == Length(be, n)
  {
    var w := Little(n, 4);
    BelowPower(n);
    LittleBack(n, 4);
    FourBytes(w);
    if |c| == 4 {
      FourBytes(c);
      FourBytes(Swapped(be, c));
      SwappedBack(be, w);
      SwappedBack(be, c);
      if Number(Swapped(be, c)) == n {
        NumberInjective(Swapped(be, c), w);
      }
    }
  }

  lemma TextExactly(b: seq<byte>, s: seq<byte>)
    requires |s| < MAX_TEXT
    ensures b == ChunkBytes(Text(s)) <==> |b| >= 2 && Sum(b[0], b[1], 0, 0) == |s| && b[2..] == s
  {
    var w := Little(|s|, 2);
    BelowPower(|s|);
    LittleBack(|s|, 2);
    TwoBytes(w);
    if |b| >= 2 {
      TwoBytes(b[..2]);
      assert b == b[..2] + b[2..];
      if Number(b[..2]) == |s| {
        NumberInjective(b[..2], w);
      }
    }
    assert (w + s)[..2] == w && (w + s)[2..] == s;
  }

  // ------------------------------------------------------------------- the theorem

  /** Cutting `b` behind `x`. */
  lemma Cut(b: seq<byte>, x: seq<byte>, y: seq<byte>)
    ensures b == x + y ==> |x| <= |b| && b[..|x|] == x && b[|x|..] == y
    ensures forall k :: 0 <= k <= |b| && b[..k] == x && b[k..] == y ==> b == x + y
  {
    forall k | 0 <= k <= |b| && b[..k] == x && b[k..] == y
      ensures b == x + y
    {
      assert b == b[..k] + b[k..];
    }
  }

  /** What is written for a value is its layout, and nothing else is. */
  lemma {:induction false} WireExact(t: Ty, v: Val, key: bool, be: bool, b: seq<byte>)
    requires HasType(v, t)
    ensures LaidOut(t, v, key, be, b) <==> b == Bytes(Encode(t, v, key, be))
    decreases t, 2, 0
  {
    match t
    case Num(_) => BytesOne(Raw(v.bytes));
    case Str =>
      BytesOne(Text(v.chars));
      TextExactly(b, v.chars);
    case Opt(e) =>
      if v.VNone? {
        BytesOne(Raw([1]));
      } else {
        var c := Encode(e, v.value, key, be);
        BytesAppend([Raw([0])], c);
        BytesOne(Raw([0]));
        if |b| >= 1 {
          WireExact(e, v.value, key, be, b[1..]);
          assert b == [b[0]] + b[1..];
        }
      }
    case Struct(fs) => ItemsExact(fs, v.vals, true, be, b);
    case Tuple(ts) => ItemsExact(ts, v.vals, key, be, b);
    case List(_) => CountedExact(t, v, key, be, b);
    case Set(_, _) => CountedExact(t, v, key, be, b);
    case Map(_, _, _) => CountedExact(t, v, key, be, b);
    case Arr(e, _) => AllExact(e, v.vals, be, b);
    case Pair(_, _) => EntryExact(t, v, key, be, b);
  }

  lemma {:induction false} CountedExact(t: Ty, v: Val, key: bool, be: bool, b: seq<byte>)
    requires (t.List? || t.Set? || t.Map?) && HasType(v, t)
    ensures LaidOut(t, v, key, be, b) <==> b == Bytes(Encode(t, v, key, be))
    decreases t, 1, |v.vals| + 1
  {
    var head := Raw(Length(be, |v.vals|));
    var c := if t.Map? then EncodeEntries(t, v.vals, key, be) else EncodeAll(t.elem, v.vals, be);
    BytesAppend([head], c);
    BytesOne(head);
    Cut(b, Length(be, |v.vals|), Bytes(c));
    if |b| >= 4 {
      CountExact(b[..4], |v.vals|, be);
      if t.Map? {
        EntriesExact(t, v.vals, key, be, b[4..]);
      } else {
        AllExact(t.elem, v.vals, be, b[4..]);
      }
    }
  }

  lemma {:induction false} ItemsExact(ts: seq<Ty>, vs: seq<Val>, key: bool, be: bool, b: seq<byte>)
    requires |ts| == |vs| && forall i :: 0 <= i < |ts| ==> HasType(vs[i], ts[i])
    ensures ItemsLaidOut(ts, vs, key, be, b) <==> b == Bytes(EncodeItems(ts, vs, key, be))
    decreases ts, 3, 0
  {
    if ts != [] {
      var x, y := Encode(ts[0], vs[0], key, be), EncodeItems(ts[1..], vs[1..], key, be);
      BytesAppend(x, y);
      Cut(b, Bytes(x), Bytes(y));
      forall k | 0 <= k <= |b|
        ensures LaidOut(ts[0], vs[0], key, be, b[..k]) <==> b[..k] == Bytes(x)
        ensures ItemsLaidOut(ts[1..], vs[1..], key, be, b[k..]) <==> b[k..] == Bytes(y)
      {
        WireExact(ts[0], vs[0], key, be, b[..k]);
        ItemsExact(ts[1..], vs[1..], key, be, b[k..]);
      }
    }
  }

  lemma {:induction false} AllExact(t: Ty, vs: seq<Val>, be: bool, b: seq<byte>)
    requires forall x :: x in vs ==> HasType(x, t)
    ensures AllLaidOut(t, vs, be, b) <==> b == Bytes(EncodeAll(t, vs, be))
    decreases t, 3, |vs|
  {
    if vs != [] {
      var x, y := Encode(t, vs[0], false, be), EncodeAll(t, vs[1..], be);
      BytesAppend(x, y);
      Cut(b, Bytes(x), Bytes(y));
      forall k | 0 <= k <= |b|
        ensures LaidOut(t, vs[0], false, be, b[..k]) <==> b[..k] == Bytes(x)
        ensures AllLaidOut(t, vs[1..], be, b[k..]) <==> b[k..] == Bytes(y)
      {
        WireExact(t, vs[0], false, be, b[..k]);
        AllExact(t, vs[1..], be, b[k..]);
      }
    }
  }

  lemma {:induction false} EntryExact(t: Ty, p: Val, key: bool, be: bool, b: seq<byte>)
    requires (t.Map? || t.Pair?) && IsEntry(p, t)
    ensures EntryLaidOut(t, p, key, be, b) <==> b == Bytes(EncodeEntry(t, p, key, be))
    decreases t, 0, 0
  {
    var x, y := if key then Encode(t.key, p.first, true, be) else [], Encode(t.elem, p.second, true, be);
    BytesAppend(x, y);
    Cut(b, Bytes(x), Bytes(y));
    if key {
      forall k | 0 <= k <= |b|
        ensures LaidOut(t.key, p.first, true, be, b[..k]) <==> b[..k] == Bytes(x)
        ensures LaidOut(t.elem, p.second, true, be, b[k..]) <==> b[k..] == Bytes(y)
      {
        WireExact(t.key, p.first, true, be, b[..k]);
        WireExact(t.elem, p.second, true, be, b[k..]);
      }
    } else {
      assert x + y == y;
      WireExact(t.elem, p.second, true, be, b);
    }
  }

  lemma {:induction false} EntriesExact(t: Ty, vs: seq<Val>, key: bool, be: bool, b: seq<byte>)
    requires (t.Map? || t.Pair?) && forall x :: x in vs ==> IsEntry(x, t)
    ensures EntriesLaidOut(t, vs, key, be, b) <==> b == Bytes(EncodeEntries(t, vs, key, be))
    decreases t, 1, |vs|
  {
    if vs != [] {
      var x, y := EncodeEntry(t, vs[0], key, be), EncodeEntries(t, vs[1..], key, be);
      BytesAppend(x, y);
      Cut(b, Bytes(x), Bytes(y));
      forall k | 0 <= k <= |b|
        ensures EntryLaidOut(t, vs[0], key, be, b[..k]) <==> b[..k] == Bytes(x)
        ensures EntriesLaidOut(t, vs[1..], key, be, b[k..]) <==> b[k..] == Bytes(y)
      {
        EntryExact(t, vs[0], key, be, b[..k]);
        EntriesExact(t, vs[1..], key, be, b[k..]);
      }
    }
  }
}
