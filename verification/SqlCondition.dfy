/** The SQL condition builder (network/orm/expr.hpp) and the chaining of `where`
    (network/orm/smart_db.hpp), as lists of SQL tokens; and an independent reader of such lists
    with the precedence of section 8.12 of SQL-92 (search condition).
  */
module SqlCondition {
  import opened Wrappers

  /** A field of a table, or an aggregate such as `count (*)` without one. */
  datatype Column = Column(table: Option<string>, name: string)

  datatype Test =
    | AgainstValue(column: Column, op: string, literal: string)
    | AgainstField(column: Column, op: string, other: Column)
    | IsNull(column: Column)
    | IsNotNull(column: Column)

  /** What the C++ operators build. */
  datatype Cond = Compare(test: Test) | And(left: Cond, right: Cond) | Or(left: Cond, right: Cond)

  datatype Token =
    | Open | Close | AndWord | OrWord | NullWord | NotNullWord
    | Col(column: Column) | Op(op: string) | Lit(text: string)

  function TestTokens(t: Test): (r: seq<Token>)
    ensures |r| >= 2 && r[0] == Col(t.column)
  {
    match t
    case AgainstValue(c, op, l) => [Col(c), Op(op), Lit(l)]
    case AgainstField(c, op, d) => [Col(c), Op(op), Col(d)]
    case IsNull(c) => [Col(c), NullWord]
    case IsNotNull(c) => [Col(c), NotNullWord]
  }

  /** `and_or`. */
  function AndOr(left: seq<Token>, word: Token, right: seq<Token>): seq<Token>
  {
    [Open] + left + [word] + right + [Close]
  }

  /** The token list of the `expr` that C++ evaluates a condition to. */
  function Tokens(c: Cond): seq<Token>
  {
    match c
    case Compare(t) => TestTokens(t)
    case And(l, r) => AndOr(Tokens(l), AndWord, Tokens(r))
    case Or(l, r) => AndOr(Tokens(l), OrWord, Tokens(r))
  }

  /** `db_proxy` and `query_proxy`: the WHERE clause collected so far. */
  class Proxy {
    var sqlWhere: seq<Token>

    constructor ()
      ensures sqlWhere == []
    {
      sqlWhere := [];
    }

    method Where(c: seq<Token>)
      modifies this
      ensures sqlWhere == Chained(old(sqlWhere), c)
    {
      if sqlWhere == [] {
        sqlWhere := [Open] + c + [Close];
      } else {
        sqlWhere := sqlWhere + [OrWord, Open] + c + [Close];
      }
    }
  }

  function Chained(clause: seq<Token>, c: seq<Token>): seq<Token>
  {
    (if clause == [] then [] else clause + [OrWord]) + [Open] + c + [Close]
  }

  function ChainedAll(cs: seq<Cond>): seq<Token>
  {
    if cs == [] then [] else Chained(ChainedAll(cs[..|cs| - 1]), Tokens(cs[|cs| - 1]))
  }

  /** A query built by any number of `where` calls. */
  method Query(cs: seq<Cond>) returns (clause: seq<Token>)
    ensures clause == ChainedAll(cs)
  {
    var proxy := new Proxy();
    var i := 0;
    while i < |cs|
      invariant 0 <= i <= |cs| && proxy.sqlWhere == ChainedAll(cs[..i])
    {
      proxy.Where(Tokens(cs[i]));
      assert cs[..i + 1][..i] == cs[..i];
      i := i + 1;
    }
    assert cs[..|cs|] == cs;
    clause := proxy.sqlWhere;
  }

  // ------------------------------------------------------------------- the reader

  datatype Parse = Fail | Done(cond: Cond, rest: seq<Token>)

  /** <predicate>. */
  function ParseTest(ts: seq<Token>): (p: Parse)
    ensures p.Done? ==> |p.rest| < |ts|
  {
    if |ts| >= 2 && ts[0].Col? && ts[1].NullWord? then Done(Compare(IsNull(ts[0].column)), ts[2..])
    else if |ts| >= 2 && ts[0].Col? && ts[1].NotNullWord? then Done(Compare(IsNotNull(ts[0].column)), ts[2..])
    else if |ts| >= 3 && ts[0].Col? && ts[1].Op? && ts[2].Lit? then
      Done(Compare(AgainstValue(ts[0].column, ts[1].op, ts[2].text)), ts[3..])
    else if |ts| >= 3 && ts[0].Col? && ts[1].Op? && ts[2].Col? then
      Done(Compare(AgainstField(ts[0].column, ts[1].op, ts[2].column)), ts[3..])
    else Fail
  }

  /** <boolean primary>: a predicate, or a search condition in parentheses. */
  function ParsePrimary(ts: seq<Token>): (p: Parse)
    ensures p.Done? ==> |p.rest| < |ts|
    decreases |ts|, 0
  {
    if ts != [] && ts[0].Open? then
      match ParseOr(ts[1..])
      case Fail => Fail
      case Done(c, rest) => if rest != [] && rest[0].Close? then Done(c, rest[1..]) else Fail
    else ParseTest(ts)
  }

  /** <boolean term>: primaries joined by AND, from the left. */
  function ParseAnd(ts: seq<Token>): (p: Parse)
    ensures p.Done? ==> |p.rest| < |ts|
    decreases |ts|, 2
  {
    match ParsePrimary(ts)
    case Fail => Fail
    case Done(c, rest) => MoreAnd(c, rest)
  }

  function MoreAnd(c: Cond, ts: seq<Token>): (p: Parse)
    ensures p.Done? ==> |p.rest| <= |ts|
    decreases |ts|, 1
  {
    if ts != [] && ts[0].AndWord? then
      match ParsePrimary(ts[1..])
      case Fail => Fail
      case Done(d, rest) => MoreAnd(And(c, d), rest)
    else Done(c, ts)
  }

  /** <search condition>: boolean terms joined by OR, from the left. */
  function ParseOr(ts: seq<Token>): (p: Parse)
    ensures p.Done? ==> |p.rest| < |ts|
    decreases |ts|, 4
  {
    match ParseAnd(ts)
    case Fail => Fail
    case Done(c, rest) => MoreOr(c, rest)
  }

  function MoreOr(c: Cond, ts: seq<Token>): (p: Parse)
    ensures p.Done? ==> |p.rest| <= |ts|
    decreases |ts|, 3
  {
    if ts != [] && ts[0].OrWord? then
      match ParseAnd(ts[1..])
      case Fail => Fail
      case Done(d, rest) => MoreOr(Or(c, d), rest)
    else Done(c, ts)
  }

  /** The whole text is one search condition. */
  function Read(ts: seq<Token>): Option<Cond>
  {
    match ParseOr(ts)
    case Fail => None
    case Done(c, rest) => if rest == [] then Some(c) else None
  }

  // ------------------------------------------------------------------ its meaning

  datatype Truth = True | False | Unknown

  function Both(a: Truth, b: Truth): Truth
  {
    if a == False || b == False then False else if a == True && b == True then True else Unknown
  }

  function Either(a: Truth, b: Truth): Truth
  {
    if a == True || b == True then True else if a == False && b == False then False else Unknown
  }

  /** The truth value of a condition on a row, given those of its comparisons. */
  function Value(c: Cond, row: Test -> Truth): Truth
  {
    match c
    case Compare(t) => row(t)
    case And(l, r) => Both(Value(l, row), Value(r, row))
    case Or(l, r) => Either(Value(l, row), Value(r, row))
  }

  /** A row is in the result exactly if the search condition is true of it. */
  predicate Selected(ts: seq<Token>, row: Test -> Truth)
  {
    Read(ts).Some? && Value(Read(ts).value, row) == True
  }

  // ------------------------------------------------------------------ what is proved

  lemma TestBack(t: Test, rest: seq<Token>)
    ensures ParsePrimary(TestTokens(t) + rest) == Done(Compare(t), rest)
  {
    var ts := TestTokens(t) + rest;
    assert ts[|TestTokens(t)|..] == rest;
  }

  /** The tokens of a condition read back as one primary, whatever follows. */
  lemma {:induction false} PrimaryBack(c: Cond, rest: seq<Token>)
    ensures ParsePrimary(Tokens(c) + rest) == Done(c, rest)
    decreases c, 1
  {
    if c.Compare? {
      TestBack(c.test, rest);
    } else {
      JoinedBack(c, rest);
    }
  }

  lemma {:induction false} JoinedBack(c: Cond, rest: seq<Token>)
    requires !c.Compare?
    ensures ParsePrimary(Tokens(c) + rest) == Done(c, rest)
    decreases c, 0
  {
    var afterRight := [Close] + rest;
    var right := Tokens(c.right) + afterRight;
    var afterLeft := [if c.And? then AndWord else OrWord] + right;
    JoinedTokens(c, rest);
    PrimaryBack(c.left, afterLeft);
    PrimaryBack(c.right, afterRight);
    assert afterLeft[1..] == right;
    OperandsRead(c, Tokens(c.left) + afterLeft, afterLeft, afterRight);
    assert afterRight[1..] == rest;
  }

  lemma JoinedTokens(c: Cond, rest: seq<Token>)
    requires !c.Compare?
    ensures var ts := Tokens(c) + rest;
            ts[0] == Open
            && ts[1..] == Tokens(c.left) + ([if c.And? then AndWord else OrWord] + (Tokens(c.right) + ([Close] + rest)))
  {
  }

  /** Two operands, the connective between them and a closing parenthesis read as the condition. */
  lemma OperandsRead(c: Cond, ts: seq<Token>, afterLeft: seq<Token>, afterRight: seq<Token>)
    requires !c.Compare? && ParsePrimary(ts) == Done(c.left, afterLeft)
    requires afterLeft != [] && afterLeft[0] == (if c.And? then AndWord else OrWord)
    requires ParsePrimary(afterLeft[1..]) == Done(c.right, afterRight)
    requires afterRight != [] && afterRight[0].Close?
    ensures ParseOr(ts) == Done(c, afterRight)
  {
    if c.And? {
      assert MoreAnd(c.left, afterLeft) == MoreAnd(c, afterRight) == Done(c, afterRight);
      assert MoreOr(c, afterRight) == Done(c, afterRight);
    } else {
      assert MoreAnd(c.left, afterLeft) == Done(c.left, afterLeft);
      assert MoreAnd(c.right, afterRight) == Done(c.right, afterRight);
      assert ParseAnd(afterLeft[1..]) == Done(c.right, afterRight);
      assert MoreOr(c, afterRight) == Done(c, afterRight);
    }
  }

  /** A primary with nothing joined to it is a whole search condition. */
  lemma Alone(ts: seq<Token>, c: Cond, rest: seq<Token>)
    requires ParsePrimary(ts) == Done(c, rest) && (rest == [] || rest[0].Close?)
    ensures ParseOr(ts) == Done(c, rest)
  {
    assert MoreAnd(c, rest) == Done(c, rest) && MoreOr(c, rest) == Done(c, rest);
    assert ParseAnd(ts) == Done(c, rest);
  }

  /** The printed condition reads back as the same tree, so SQL gives it the same meaning. */
  lemma ReadBack(c: Cond)
    ensures Read(Tokens(c)) == Some(c)
  {
    PrimaryBack(c, []);
    assert Tokens(c) + [] == Tokens(c);
    Alone(Tokens(c), c, []);
  }

  /** Different conditions never print alike. */
  lemma PrintedApart(c: Cond, d: Cond)
    requires Tokens(c) == Tokens(d)
    ensures c == d
  {
    ReadBack(c);
    ReadBack(d);
  }

  // ------------------------------------------------------------------ parentheses

  /** The nesting depth after `ts`, starting from `depth`; None when it would fall below `floor`. */
  function Depth(ts: seq<Token>, depth: int, floor: int): Option<int>
  {
    if ts == [] then Some(depth)
    else
      var d := if ts[0].Open? then depth + 1 else if ts[0].Close? then depth - 1 else depth;
      if d < floor then None else Depth(ts[1..], d, floor)
  }

  lemma {:induction false} DepthAppend(a: seq<Token>, b: seq<Token>, depth: int, floor: int)
    ensures Depth(a + b, depth, floor) ==
            if Depth(a, depth, floor).None? then None else Depth(b, Depth(a, depth, floor).value, floor)
  {
    if a == [] {
      assert a + b == b;
    } else {
      assert (a + b)[1..] == a[1..] + b;
      var d := if a[0].Open? then depth + 1 else if a[0].Close? then depth - 1 else depth;
      if d >= floor {
        DepthAppend(a[1..], b, d, floor);
      }
    }
  }

  lemma DepthOne(t: Token, depth: int, floor: int)
    ensures Depth([t], depth, floor) ==
            var d := if t.Open? then depth + 1 else if t.Close? then depth - 1 else depth;
            if d < floor then None else Some(d)
  {
    assert [t][1..] == [];
  }

  lemma TestFlat(t: Test, depth: int)
    ensures Depth(TestTokens(t), depth, depth) == Some(depth)
  {
    var ts := TestTokens(t);
    assert ts[1..][1..] == ts[2..];
    assert |ts| == 3 ==> ts[2..][1..] == [];
    assert Depth(ts[2..], depth, depth) == Some(depth);
  }

  /** Parentheses are balanced: the depth returns to where it was and never falls below. */
  lemma {:induction false} Balanced(c: Cond, depth: int, floor: int)
    requires floor <= depth
    ensures Depth(Tokens(c), depth, floor) == Some(depth)
  {
    if c.Compare? {
      TestFlat(c.test, depth);
      DepthFloor(Tokens(c), depth, depth, floor);
    } else {
      var word := if c.And? then AndWord else OrWord;
      Balanced(c.left, depth + 1, floor);
      Balanced(c.right, depth + 1, floor);
      var l, r := Tokens(c.left), Tokens(c.right);
      DepthOne(Open, depth, floor);
      DepthAppend([Open], l, depth, floor);
      DepthOne(word, depth + 1, floor);
      DepthAppend([Open] + l, [word], depth, floor);
      DepthAppend([Open] + l + [word], r, depth, floor);
      DepthOne(Close, depth + 1, floor);
      DepthAppend([Open] + l + [word] + r, [Close], depth, floor);
    }
  }

  lemma {:induction false} DepthFloor(ts: seq<Token>, depth: int, floor: int, lower: int)
    requires lower <= floor && Depth(ts, depth, floor).Some?
    ensures Depth(ts, depth, lower) == Depth(ts, depth, floor)
  {
    if ts != [] {
      DepthFloor(ts[1..], if ts[0].Open? then depth + 1 else if ts[0].Close? then depth - 1 else depth, floor, lower);
    }
  }

  // ------------------------------------------------------------------ chains of `where`

  /** The further conditions of a chain, as they stand in the clause. */
  function Links(cs: seq<Cond>): seq<Token>
  {
    if cs == [] then [] else [OrWord] + Term(cs[0]) + Links(cs[1..])
  }

  function Term(c: Cond): seq<Token> { [Open] + Tokens(c) + [Close] }

  /** The tree SQL reads a chain as. */
  function Disjunction(c: Cond, cs: seq<Cond>): Cond
    decreases |cs|
  {
    if cs == [] then c else Disjunction(Or(c, cs[0]), cs[1..])
  }

  lemma {:induction false} LinksSnoc(cs: seq<Cond>, c: Cond)
    ensures Links(cs + [c]) == Links(cs) + [OrWord] + Term(c)
  {
    if cs == [] {
      assert [c][1..] == [] && [] + [c] == [c];
      assert Links([]) + [OrWord] == [OrWord];
    } else {
      assert (cs + [c])[1..] == cs[1..] + [c];
      LinksSnoc(cs[1..], c);
      LinksJoin([OrWord] + Term(cs[0]), Links(cs[1..]), [OrWord], Term(c));
    }
  }

  lemma LinksJoin(a: seq<Token>, b: seq<Token>, c: seq<Token>, d: seq<Token>)
    ensures a + (b + c + d) == a + b + c + d
  {
  }

  lemma {:induction false} ChainTokens(cs: seq<Cond>)
    requires cs != []
    ensures ChainedAll(cs) == Term(cs[0]) + Links(cs[1..])
  {
    var n := |cs| - 1;
    if n == 0 {
      assert ChainedAll(cs[..0]) == [];
    } else {
      ChainTokens(cs[..n]);
      assert cs[..n][1..] + [cs[n]] == cs[1..];
      LinksSnoc(cs[..n][1..], cs[n]);
      var clause := ChainedAll(cs[..n]);
      assert clause + [OrWord] + [Open] + Tokens(cs[n]) + [Close] == clause + [OrWord] + Term(cs[n]);
      LinksJoin(Term(cs[0]), Links(cs[..n][1..]), [OrWord], Term(cs[n]));
    }
  }

  /** A condition in its own parentheses is one term of the chain. */
  lemma TermBack(c: Cond, rest: seq<Token>)
    requires rest == [] || rest[0].OrWord?
    ensures ParseAnd(Term(c) + rest) == Done(c, rest)
  {
    var ts := Term(c) + rest;
    var after := [Close] + rest;
    assert ts[1..] == Tokens(c) + after;
    PrimaryBack(c, after);
    assert after[1..] == rest;
    Alone(ts[1..], c, after);
    assert MoreAnd(c, rest) == Done(c, rest);
  }

  lemma LinksStart(cs: seq<Cond>)
    ensures Links(cs) == [] || Links(cs)[0].OrWord?
  {
  }

  lemma FirstLink(cs: seq<Cond>)
    requires cs != []
    ensures Links(cs)[0] == OrWord && Links(cs)[1..] == Term(cs[0]) + Links(cs[1..])
  {
    DropFirst(OrWord, Term(cs[0]), Links(cs[1..]));
  }

  lemma DropFirst(t: Token, a: seq<Token>, b: seq<Token>)
    ensures ([t] + a + b)[0] == t && ([t] + a + b)[1..] == a + b
  {
  }

  lemma {:induction false} LinksBack(c: Cond, cs: seq<Cond>)
    ensures MoreOr(c, Links(cs)) == Done(Disjunction(c, cs), [])
    decreases |cs|
  {
    if cs != [] {
      LinksStart(cs[1..]);
      FirstLink(cs);
      TermBack(cs[0], Links(cs[1..]));
      LinksBack(Or(c, cs[0]), cs[1..]);
    }
  }

  /** A chain of `where` calls reads as the disjunction of its conditions. */
  lemma ChainBack(cs: seq<Cond>)
    requires cs != []
    ensures Read(ChainedAll(cs)) == Some(Disjunction(cs[0], cs[1..]))
  {
    ChainTokens(cs);
    LinksStart(cs[1..]);
    TermBack(cs[0], Links(cs[1..]));
    LinksBack(cs[0], cs[1..]);
  }

  /** True if some condition is, else False if all are, else Unknown. */
  ghost function AnyOf(cs: seq<Cond>, row: Test -> Truth): Truth
  {
    if exists i :: 0 <= i < |cs| && Value(cs[i], row) == True then True
    else if forall i :: 0 <= i < |cs| ==> Value(cs[i], row) == False then False
    else Unknown
  }

  lemma AnyOfFirst(c: Cond, cs: seq<Cond>, row: Test -> Truth)
    ensures AnyOf([c] + cs, row) == Either(Value(c, row), AnyOf(cs, row))
  {
    var all := [c] + cs;
    assert all[0] == c;
    assert forall i :: 0 <= i < |cs| ==> cs[i] == all[i + 1];
    assert forall i :: 0 < i < |all| ==> all[i] == cs[i - 1];
  }

  lemma {:induction false} DisjunctionValue(c: Cond, cs: seq<Cond>, row: Test -> Truth)
    ensures Value(Disjunction(c, cs), row) == Either(Value(c, row), AnyOf(cs, row))
    decreases |cs|
  {
    if cs != [] {
      DisjunctionValue(Or(c, cs[0]), cs[1..], row);
      AnyOfFirst(cs[0], cs[1..], row);
      assert [cs[0]] + cs[1..] == cs;
    }
  }

  lemma ChainValue(cs: seq<Cond>, row: Test -> Truth)
    requires cs != []
    ensures Value(Disjunction(cs[0], cs[1..]), row) == AnyOf(cs, row)
  {
    DisjunctionValue(cs[0], cs[1..], row);
    AnyOfFirst(cs[0], cs[1..], row);
    assert [cs[0]] + cs[1..] == cs;
  }

  /** A query selects a row exactly if one of its `where` conditions is true of the row, and the
      clause as a whole has the value of their disjunction in three-valued logic. */
  lemma WhereSelects(cs: seq<Cond>, row: Test -> Truth)
    requires cs != []
    ensures Read(ChainedAll(cs)).Some? && Value(Read(ChainedAll(cs)).value, row) == AnyOf(cs, row)
    ensures Selected(ChainedAll(cs), row) <==> exists i :: 0 <= i < |cs| && Value(cs[i], row) == True
  {
    ChainBack(cs);
    ChainValue(cs, row);
  }

  /** A row is selected by `a && b` exactly if it is by both, and by `a || b` exactly if it is by one. */
  lemma ConnectivesSelect(a: Cond, b: Cond, row: Test -> Truth)
    ensures Selected(Tokens(And(a, b)), row) <==> Selected(Tokens(a), row) && Selected(Tokens(b), row)
    ensures Selected(Tokens(Or(a, b)), row) <==> Selected(Tokens(a), row) || Selected(Tokens(b), row)
  {
    ReadBack(And(a, b));
    ReadBack(Or(a, b));
    ReadBack(a);
    ReadBack(b);
  }

  /** By a comparison, exactly if that is true of it. */
  lemma ComparisonSelects(t: Test, row: Test -> Truth)
    ensures Selected(Tokens(Compare(t)), row) <==> row(t) == True
  {
    ReadBack(Compare(t));
  }
}
