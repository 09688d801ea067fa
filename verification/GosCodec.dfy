/** The binary ("gos") format: what `Serializer<gos_serialize_adapter>` writes and what
    `DeSerializer<gos_deserialize_adapter>` makes of a byte stream, as functions of an explicit
    type descriptor (network/serialize/serializer.hpp, gos_adapter.hpp).
  */
module GosCodec {

  type byte = x: nat | x < 256

  /** C++ types as the overloads of `WriteObject` and `ReadObject` tell them apart. */
  datatype Ty =
    | Num(width: nat)            // arithmetic type, or an enum through its underlying type
    | Str
    | Opt(elem: Ty)
    | Struct(fields: seq<Ty>)    // reflected user class
    | Tuple(items: seq<Ty>)
    | List(elem: Ty)             // container with push_back
    | Set(elem: Ty, multi: bool) // container with insert only; `multi` ones keep duplicates
    | Arr(elem: Ty, n: nat)      // T[n] or std::array<T, n>
    | Map(key: Ty, elem: Ty, multi: bool)
    | Pair(key: Ty, elem: Ty)

  /** Values; a map is the sequence of its entries in iteration order, each a `VPair`. */
  datatype Val =
    | VNum(bytes: seq<byte>)     // object representation
    | VStr(chars: seq<byte>)
    | VNone
    | VSome(value: Val)
    | VSeq(vals: seq<Val>)
    | VPair(first: Val, second: Val)

  const MAX_COUNT := 0x8000_0000
  const MAX_TEXT := 0x8000

  predicate Distinct<T(==)>(s: seq<T>) { forall i, j :: 0 <= i < j < |s| ==> s[i] != s[j] }

  predicate DistinctKeys(s: seq<Val>)
  {
    && (forall p :: p in s ==> p.VPair?)
    && forall i, j :: 0 <= i < j < |s| ==> s[i].VPair? && s[j].VPair? && s[i].first != s[j].first
  }

  /** Unless the container keeps duplicates, its elements differ. */
  predicate Elements(s: seq<Val>, multi: bool) { multi || Distinct(s) }

  predicate Entries(s: seq<Val>, multi: bool) { (forall p :: p in s ==> p.VPair?) && (multi || DistinctKeys(s)) }

  /** `v` is a value of type `t` that fits the format: counts fit an int, texts fit a short and
      hold no zero byte. */
  predicate HasType(v: Val, t: Ty)
    decreases t
  {
    match t
    case Num(w) => v.VNum? && |v.bytes| == w && w >= 1
    case Str => v.VStr? && |v.chars| < MAX_TEXT && 0 !in v.chars
    case Opt(e) => v.VNone? || (v.VSome? && HasType(v.value, e))
    case Struct(fs) => v.VSeq? && |v.vals| == |fs| && forall i :: 0 <= i < |fs| ==> HasType(v.vals[i], fs[i])
    case Tuple(ts) => v.VSeq? && |v.vals| == |ts| && forall i :: 0 <= i < |ts| ==> HasType(v.vals[i], ts[i])
    case List(e) => v.VSeq? && |v.vals| < MAX_COUNT && forall x :: x in v.vals ==> HasType(x, e)
    case Set(e, multi) =>
      v.VSeq? && |v.vals| < MAX_COUNT && Elements(v.vals, multi) && forall x :: x in v.vals ==> HasType(x, e)
    case Arr(e, n) => v.VSeq? && |v.vals| == n && forall x :: x in v.vals ==> HasType(x, e)
    case Map(k, e, multi) =>
      v.VSeq? && |v.vals| < MAX_COUNT && Entries(v.vals, multi)
      && forall x :: x in v.vals ==> x.VPair? && HasType(x.first, k) && HasType(x.second, e)
    case Pair(k, e) => v.VPair? && HasType(v.first, k) && HasType(v.second, e)
  }

  // --------------------------------------------------------------- the stream

  /** What one call on the stream writes. */
  datatype Chunk = Raw(bytes: seq<byte>) | Text(chars: seq<byte>)

  /** The low `k` bytes of a number, the lowest first, as they lie in a little-endian host. */
  function Little(n: nat, k: nat): (r: seq<byte>)
    ensures |r| == k
  {
    if k == 0 then [] else [n % 256] + Little(n / 256, k - 1)
  }

  function Number(s: seq<byte>): nat { if s == [] then 0 else s[0] + 256 * Number(s[1..]) }

  function Reversed(s: seq<byte>): (r: seq<byte>)
    ensures |r| == |s|
  {
    if s == [] then [] else Reversed(s[1..]) + [s[0]]
  }

  /** `hton` and `ntoh` on a little-endian host, when the adapter is big-endian. */
  function Swapped(be: bool, s: seq<byte>): (r: seq<byte>)
    ensures |r| == |s|
  {
    if be then Reversed(s) else s
  }

  /** `write_int(gos_hton(n))`. */
  function Length(be: bool, n: nat): seq<byte> { Swapped(be, Little(n, 4)) }

  function ChunkBytes(c: Chunk): seq<byte>
  {
    match c
    case Raw(b) => b
    case Text(s) => Little(|s|, 2) + s
  }

  function Bytes(cs: seq<Chunk>): seq<byte>
  {
    if cs == [] then [] else ChunkBytes(cs[0]) + Bytes(cs[1..])
  }

  function Zeros(n: nat): (r: seq<byte>)
    ensures |r| == n
  {
    seq(n, _ => 0)
  }

  /** `read_value` of a `w`-byte object that was zero before: a short stream changes nothing. */
  function ReadValue(w: nat, s: seq<byte>): (seq<byte>, seq<byte>)
  {
    if |s| < w then (Zeros(w), s) else (s[..w], s[w..])
  }

  /** `read_int` and `gos_ntoh`, converted to `size_t`. */
  function ReadLength(be: bool, s: seq<byte>): (nat, seq<byte>)
  {
    var (b, rest) := ReadValue(4, s);
    var v := Number(Swapped(be, b));
    (if v < MAX_COUNT then v else v + 0xFFFF_FFFF_0000_0000, rest)
  }

  function UpToZero(s: seq<byte>): seq<byte>
  {
    if s == [] || s[0] == 0 then [] else [s[0]] + UpToZero(s[1..])
  }

  /** `read_string` into an empty string.  It needs more than the two length bytes to be left,
      and stops at the first zero byte.  A length that is negative as a short, or longer than
      the stream, reads outside the data in the source; here it yields the empty string. */
  function ReadText(s: seq<byte>): (seq<byte>, seq<byte>)
  {
    if |s| <= 2 then ([], s)
    else
      var len := Number(s[..2]);
      if len >= MAX_TEXT || len > |s| - 2 then ([], [])
      else (UpToZero(s[2..2 + len]), s[2 + len..])
  }

  // --------------------------------------------------------------- the writer

  /** `WriteObject`; `key` is the `BeginObject` flag. */
  function Encode(t: Ty, v: Val, key: bool, be: bool): seq<Chunk>
    requires HasType(v, t)
    decreases t, 2, 0
  {
    match t
    case Num(_) => [Raw(v.bytes)]
    case Str => [Text(v.chars)]
    case Opt(e) => if v.VNone? then [Raw([1])] else [Raw([0])] + Encode(e, v.value, key, be)
    case Struct(fs) => EncodeItems(fs, v.vals, true, be)
    case Tuple(ts) => EncodeItems(ts, v.vals, key, be)
    case List(e) => [Raw(Length(be, |v.vals|))] + EncodeAll(e, v.vals, be)
    case Set(e, _) => [Raw(Length(be, |v.vals|))] + EncodeAll(e, v.vals, be)
    case Arr(e, _) => EncodeAll(e, v.vals, be)
    case Map(_, _, _) => [Raw(Length(be, |v.vals|))] + EncodeEntries(t, v.vals, key, be)
    case Pair(_, _) => EncodeEntry(t, v, key, be)
  }

  /** The fields of a class or the items of a tuple. */
  function EncodeItems(ts: seq<Ty>, vs: seq<Val>, key: bool, be: bool): seq<Chunk>
    requires |ts| == |vs| && forall i :: 0 <= i < |ts| ==> HasType(vs[i], ts[i])
    decreases ts, 3, 0
  {
    if ts == [] then [] else Encode(ts[0], vs[0], key, be) + EncodeItems(ts[1..], vs[1..], key, be)
  }

  /** `WriteOnlyArray`. */
  function EncodeAll(t: Ty, vs: seq<Val>, be: bool): seq<Chunk>
    requires forall x :: x in vs ==> HasType(x, t)
    decreases t, 3, |vs|
  {
    if vs == [] then [] else Encode(t, vs[0], false, be) + EncodeAll(t, vs[1..], be)
  }

  predicate IsEntry(p: Val, t: Ty)
    requires t.Map? || t.Pair?
  {
    p.VPair? && HasType(p.first, t.key) && HasType(p.second, t.elem)
  }

  /** `WriteKV`, for the entry type of `t`. */
  function EncodeEntry(t: Ty, p: Val, key: bool, be: bool): seq<Chunk>
    requires (t.Map? || t.Pair?) && IsEntry(p, t)
    decreases t, 0, 0
  {
    (if key then Encode(t.key, p.first, true, be) else []) + Encode(t.elem, p.second, true, be)
  }

  function EncodeEntries(t: Ty, vs: seq<Val>, key: bool, be: bool): seq<Chunk>
    requires (t.Map? || t.Pair?) && forall x :: x in vs ==> IsEntry(x, t)
    decreases t, 1, |vs|
  {
    if vs == [] then [] else EncodeEntry(t, vs[0], key, be) + EncodeEntries(t, vs[1..], key, be)
  }

  // --------------------------------------------------------------- the reader

  /** A value-initialized object. */
  function Default(t: Ty): Val
    decreases t, 0
  {
    match t
    case Num(w) => VNum(Zeros(w))
    case Str => VStr([])
    case Opt(_) => VNone
    case Struct(fs) => VSeq(Defaults(fs))
    case Tuple(ts) => VSeq(Defaults(ts))
    case List(_) => VSeq([])
    case Set(_, _) => VSeq([])
    case Map(_, _, _) => VSeq([])
    case Arr(e, n) => VSeq(seq(n, _ => Default(e)))
    case Pair(k, e) => VPair(Default(k), Default(e))
  }

  function Defaults(ts: seq<Ty>): seq<Val>
    decreases ts, 1
  {
    if ts == [] then [] else [Default(ts[0])] + Defaults(ts[1..])
  }

  /** `insert` into a set or a multiset. */
  function Insert(acc: seq<Val>, v: Val, multi: bool): seq<Val> { if !multi && v in acc then acc else acc + [v] }

  /** `insert` into a map, where an entry whose key is present is dropped, or into a multimap. */
  function InsertEntry(acc: seq<Val>, p: Val, multi: bool): seq<Val>
  {
    if !multi && p.VPair? && exists q :: q in acc && q.VPair? && q.first == p.first then acc else acc + [p]
  }

  /** `ReadObject` into a value-initialized object; `key` is the `BeginObject` flag. */
  function Decode(t: Ty, key: bool, be: bool, s: seq<byte>): (Val, seq<byte>)
    decreases t, 2, 0
  {
    match t
    case Num(w) => var (b, rest) := ReadValue(w, s); (VNum(b), rest)
    case Str => var (c, rest) := ReadText(s); (VStr(c), rest)
    case Opt(e) =>
      var (b, rest) := ReadValue(1, s);
      if b == [0] then var (v, rest') := Decode(e, true, be, rest); (VSome(v), rest') else (VNone, rest)
    case Struct(fs) => var (vs, rest) := DecodeItems(fs, true, be, s); (VSeq(vs), rest)
    case Tuple(ts) => var (vs, rest) := DecodeItems(ts, false, be, s); (VSeq(vs), rest)
    case List(e) =>
      var (n, rest) := ReadLength(be, s);
      var (vs, rest') := DecodeAll(e, n, be, rest);
      (VSeq(vs), rest')
    case Set(e, multi) =>
      var (n, rest) := ReadLength(be, s);
      var (vs, rest') := DecodeSet(e, multi, n, be, rest, []);
      (VSeq(vs), rest')
    case Arr(e, n) => var (vs, rest) := DecodeAll(e, n, be, s); (VSeq(vs), rest)
    case Map(_, _, _) =>
      var (n, rest) := ReadLength(be, s);
      var (vs, rest') := DecodeMap(t, n, key, be, rest, []);
      (VSeq(vs), rest')
    case Pair(_, _) => DecodeEntry(t, key, be, s)
  }

  function DecodeItems(ts: seq<Ty>, key: bool, be: bool, s: seq<byte>): (seq<Val>, seq<byte>)
    decreases ts, 3, 0
  {
    if ts == [] then ([], s)
    else
      var (v, rest) := Decode(ts[0], key, be, s);
      var (vs, rest') := DecodeItems(ts[1..], key, be, rest);
      ([v] + vs, rest')
  }

  function DecodeAll(t: Ty, n: nat, be: bool, s: seq<byte>): (seq<Val>, seq<byte>)
    decreases t, 3, n
  {
    if n == 0 then ([], s)
    else
      var (v, rest) := Decode(t, false, be, s);
      var (vs, rest') := DecodeAll(t, n - 1, be, rest);
      ([v] + vs, rest')
  }

  function DecodeSet(t: Ty, multi: bool, n: nat, be: bool, s: seq<byte>, acc: seq<Val>): (seq<Val>, seq<byte>)
    decreases t, 3, n
  {
    if n == 0 then (acc, s)
    else var (v, rest) := Decode(t, false, be, s); DecodeSet(t, multi, n - 1, be, rest, Insert(acc, v, multi))
  }

  /** `ReadKV`: without the key flag the key keeps its initial value. */
  function DecodeEntry(t: Ty, key: bool, be: bool, s: seq<byte>): (Val, seq<byte>)
    requires t.Map? || t.Pair?
    decreases t, 0, 0
  {
    var (k, rest) := if key then Decode(t.key, true, be, s) else (Default(t.key), s);
    var (v, rest') := Decode(t.elem, true, be, rest);
    (VPair(k, v), rest')
  }

  function DecodeMap(t: Ty, n: nat, key: bool, be: bool, s: seq<byte>, acc: seq<Val>): (seq<Val>, seq<byte>)
    requires t.Map?
    decreases t, 1, n
  {
    if n == 0 then (acc, s)
    else
      var (p, rest) := DecodeEntry(t, key, be, s);
      DecodeMap(t, n - 1, key, be, rest, InsertEntry(acc, p, t.multi))
  }
}
