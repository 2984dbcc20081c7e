/** The expression grammar of Compiler/lab-py/lab_parser.py: the left-recursive form its comments
    give, the rewritten form its functions follow, and the proof that both accept the same strings. */
module ExpressionGrammar {
  import opened Wrappers

  // Token codes
  const BEGIN := 1
  const END := 2
  const INTEGER := 3
  const IF := 4
  const THEN := 5
  const ELSE := 6
  const FUNCTION := 7
  const READ := 8
  const WRITE := 9
  const IDENTIFIER := 10
  const CONSTANT := 11
  const MINUS := 18
  const TIMES := 19
  const ASSIGN := 20
  const LEFT := 21
  const RIGHT := 22
  const SEMICOLON := 23
  const EOLN := 24
  const EOF := 25

  predicate IsRelation(code: nat) {
    12 <= code <= 17
  }

  type Relation = code: nat | IsRelation(code) witness 12

  // The documented, left-recursive grammar: parse trees and the codes they yield

  datatype Expr = Minus(left: Expr, right: Item) | One(item: Item)
  datatype Item = Times(left: Item, right: Factor) | Single(factor: Factor)
  datatype Factor = Variable | Constant | Call(argument: Expr)
  datatype Condition = Compare(left: Expr, relation: Relation, right: Expr)

  function ExprCodes(e: Expr): seq<nat> {
    match e
    case Minus(l, r) => ExprCodes(l) + [MINUS] + ItemCodes(r)
    case One(i) => ItemCodes(i)
  }

  function ItemCodes(i: Item): seq<nat> {
    match i
    case Times(l, r) => ItemCodes(l) + [TIMES] + FactorCodes(r)
    case Single(f) => FactorCodes(f)
  }

  function FactorCodes(f: Factor): seq<nat> {
    match f
    case Variable => [IDENTIFIER]
    case Constant => [CONSTANT]
    case Call(e) => [IDENTIFIER, LEFT] + ExprCodes(e) + [RIGHT]
  }

  function ConditionCodes(c: Condition): seq<nat> {
    ExprCodes(c.left) + [c.relation] + ExprCodes(c.right)
  }

  // The rewritten grammar: what is left of s after the nonterminal, or None on an error

  function ParseExpr(s: seq<nat>): (r: Option<seq<nat>>)
    ensures r.Some? ==> |r.value| < |s|
    decreases |s|, 3
  {
    var i := ParseItem(s);
    if i.None? then None else ParseExprA(i.value)
  }

  function ParseExprA(s: seq<nat>): (r: Option<seq<nat>>)
    ensures r.Some? ==> |r.value| <= |s|
    ensures r.Some? && s != [] && s[0] == MINUS ==> |r.value| < |s|
    decreases |s|, 2
  {
    if s != [] && s[0] == MINUS then
      var i := ParseItem(s[1..]);
      if i.None? then None else ParseExprA(i.value)
    else
      Some(s)
  }

  function ParseItem(s: seq<nat>): (r: Option<seq<nat>>)
    ensures r.Some? ==> |r.value| < |s|
    decreases |s|, 2
  {
    var f := ParseFactor(s);
    if f.None? then None else ParseItemA(f.value)
  }

  function ParseItemA(s: seq<nat>): (r: Option<seq<nat>>)
    ensures r.Some? ==> |r.value| <= |s|
    ensures r.Some? && s != [] && s[0] == TIMES ==> |r.value| < |s|
    decreases |s|, 1
  {
    if s != [] && s[0] == TIMES then
      var f := ParseFactor(s[1..]);
      if f.None? then None else ParseItemA(f.value)
    else
      Some(s)
  }

  function ParseFactor(s: seq<nat>): (r: Option<seq<nat>>)
    ensures r.Some? ==> |r.value| < |s|
    decreases |s|, 1
  {
    if s == [] then None
    else if s[0] == CONSTANT then Some(s[1..])
    else if |s| == 1 then None
    else if s[1] == LEFT then ParseCall(s)
    else ParseVariable(s)
  }

  function ParseCall(s: seq<nat>): (r: Option<seq<nat>>)
    requires |s| > 1 && s[1] == LEFT
    ensures r.Some? ==> |r.value| < |s| - 2
    decreases |s|, 0
  {
    if s[0] != IDENTIFIER then None
    else
      var e := ParseExpr(s[2..]);
      if e.None? || e.value == [] || e.value[0] != RIGHT then None else Some(e.value[1..])
  }

  /** The input after one expected token. */
  function Expect(s: seq<nat>, code: nat): (r: Option<seq<nat>>)
    ensures r.Some? ==> |r.value| < |s|
  {
    if s == [] || s[0] != code then None else Some(s[1..])
  }

  function ParseVariable(s: seq<nat>): (r: Option<seq<nat>>)
    ensures r.Some? ==> |r.value| < |s|
  {
    Expect(s, IDENTIFIER)
  }

  function ParseCondition(s: seq<nat>): (r: Option<seq<nat>>)
    ensures r.Some? ==> |r.value| < |s|
  {
    var l := ParseExpr(s);
    if l.None? || l.value == [] || !IsRelation(l.value[0]) then None else ParseExpr(l.value[1..])
  }

  // Soundness: what the rewritten grammar consumes derives from the documented one


  lemma Regroup(left: seq<nat>, code: nat, right: seq<nat>, rest: seq<nat>, s: seq<nat>)
    requires s != [] && s[0] == code && s[1..] == right + rest
    ensures left + s == left + [code] + right + rest
  {
    assert s == [code] + (right + rest);
  }

  lemma {:induction false} ExprIsSound(s: seq<nat>) returns (e: Expr)
    requires ParseExpr(s).Some?
    ensures s == ExprCodes(e) + ParseExpr(s).value
    decreases |s|, 3
  {
    var i := ItemIsSound(s);
    e := ExprAIsSound(One(i), ParseItem(s).value);
    assert s == ItemCodes(i) + ParseItem(s).value;
  }

  /** The loop of minus signs extends the tree on its left to the left-recursive one. */
  lemma {:induction false} ExprAIsSound(left: Expr, s: seq<nat>) returns (e: Expr)
    requires ParseExprA(s).Some?
    ensures ExprCodes(left) + s == ExprCodes(e) + ParseExprA(s).value
    decreases |s|, 2
  {
    if s != [] && s[0] == MINUS {
      var i := ItemIsSound(s[1..]);
      var rest := ParseItem(s[1..]).value;
      e := ExprAIsSound(Minus(left, i), rest);
      Regroup(ExprCodes(left), MINUS, ItemCodes(i), rest, s);
    } else {
      e := left;
    }
  }

  lemma {:induction false} ItemIsSound(s: seq<nat>) returns (i: Item)
    requires ParseItem(s).Some?
    ensures s == ItemCodes(i) + ParseItem(s).value
    decreases |s|, 2
  {
    var f := FactorIsSound(s);
    i := ItemAIsSound(Single(f), ParseFactor(s).value);
    assert s == FactorCodes(f) + ParseFactor(s).value;
  }

  lemma {:induction false} ItemAIsSound(left: Item, s: seq<nat>) returns (i: Item)
    requires ParseItemA(s).Some?
    ensures ItemCodes(left) + s == ItemCodes(i) + ParseItemA(s).value
    decreases |s|, 1
  {
    if s != [] && s[0] == TIMES {
      var f := FactorIsSound(s[1..]);
      var rest := ParseFactor(s[1..]).value;
      i := ItemAIsSound(Times(left, f), rest);
      Regroup(ItemCodes(left), TIMES, FactorCodes(f), rest, s);
    } else {
      i := left;
    }
  }

  lemma {:induction false} FactorIsSound(s: seq<nat>) returns (f: Factor)
    requires ParseFactor(s).Some?
    ensures s == FactorCodes(f) + ParseFactor(s).value
    decreases |s|, 1
  {
    if s[0] == CONSTANT {
      f := Constant;
    } else if s[1] == LEFT {
      var e := ExprIsSound(s[2..]);
      f := Call(e);
      var rest := ParseExpr(s[2..]).value;
      assert s == [IDENTIFIER, LEFT] + s[2..] && rest == [RIGHT] + rest[1..];
    } else {
      f := Variable;
    }
  }

  lemma ConditionIsSound(s: seq<nat>) returns (c: Condition)
    requires ParseCondition(s).Some?
    ensures s == ConditionCodes(c) + ParseCondition(s).value
  {
    var l := ExprIsSound(s);
    var rest := ParseExpr(s).value;
    var r := ExprIsSound(rest[1..]);
    c := Compare(l, rest[0], r);
    assert rest == [rest[0]] + rest[1..];
  }

  // Completeness: every derivable string is consumed exactly, unless what follows continues it

  predicate EndsOpen(e: Expr) {
    match e
    case Minus(_, i) => ItemEndsOpen(i)
    case One(i) => ItemEndsOpen(i)
  }

  predicate ItemEndsOpen(i: Item) {
    match i
    case Times(_, f) => f.Variable?
    case Single(f) => f.Variable?
  }

  /** A closing variable needs a following token, and one that is no parenthesis. */
  predicate Closes(open: bool, t: seq<nat>) {
    open ==> t != [] && t[0] != LEFT
  }

  lemma {:induction false} FactorIsRead(f: Factor, t: seq<nat>)
    requires Closes(f.Variable?, t)
    ensures ParseFactor(FactorCodes(f) + t) == Some(t)
    decreases f, 0
  {
    var s := FactorCodes(f) + t;
    match f {
      case Variable => assert s[1..] == t;
      case Constant => assert s[1..] == t;
      case Call(e) =>
        ExprIsRead(e, [RIGHT] + t);
        assert s[2..] == ExprCodes(e) + ([RIGHT] + t);
        assert ([RIGHT] + t)[1..] == t;
    }
  }

  /** Reading an item's codes leaves the loop of times signs to decide about the rest. */
  lemma {:induction false} ItemIsRead(i: Item, t: seq<nat>)
    requires Closes(ItemEndsOpen(i), t)
    ensures ParseItem(ItemCodes(i) + t) == ParseItemA(t)
    decreases i, 1
  {
    match i {
      case Single(f) => FactorIsRead(f, t);
      case Times(l, f) =>
        var rest := [TIMES] + (FactorCodes(f) + t);
        assert ItemCodes(i) + t == ItemCodes(l) + rest;
        ItemIsRead(l, rest);
        assert rest[1..] == FactorCodes(f) + t;
        FactorIsRead(f, t);
    }
  }

  function Continue(r: Option<seq<nat>>): Option<seq<nat>> {
    if r.None? then None else ParseExprA(r.value)
  }

  lemma {:induction false} ExprIsRead(e: Expr, t: seq<nat>)
    requires Closes(EndsOpen(e), t)
    ensures ParseExpr(ExprCodes(e) + t) == Continue(ParseItemA(t))
    decreases e, 2
  {
    match e {
      case One(i) => ItemIsRead(i, t);
      case Minus(l, i) =>
        var rest := [MINUS] + (ItemCodes(i) + t);
        assert ExprCodes(e) + t == ExprCodes(l) + rest;
        ExprIsRead(l, rest);
        assert rest[1..] == ItemCodes(i) + t;
        ItemIsRead(i, t);
    }
  }

  predicate FallsShort(r: Option<seq<nat>>, t: seq<nat>) {
    r.Some? ==> |r.value| < |t|
  }

  lemma {:induction false} OpenItemRunsOn(i: Item, t: seq<nat>)
    requires ItemEndsOpen(i) && !Closes(true, t)
    ensures FallsShort(ParseItem(ItemCodes(i) + t), t)
  {
    var last := [IDENTIFIER] + t;
    assert FallsShort(ParseFactor(last), t);
    if i.Times? {
      var rest := [TIMES] + last;
      assert ItemCodes(i) + t == ItemCodes(i.left) + rest;
      ItemIsRead(i.left, rest);
      assert rest[1..] == last;
    }
  }

  lemma {:induction false} OpenExprRunsOn(e: Expr, t: seq<nat>)
    requires EndsOpen(e) && !Closes(true, t)
    ensures FallsShort(ParseExpr(ExprCodes(e) + t), t)
  {
    match e {
      case One(i) => OpenItemRunsOn(i, t);
      case Minus(l, i) =>
        var rest := [MINUS] + (ItemCodes(i) + t);
        assert ExprCodes(e) + t == ExprCodes(l) + rest;
        ExprIsRead(l, rest);
        assert rest[1..] == ItemCodes(i) + t;
        OpenItemRunsOn(i, t);
    }
  }

  /** What may follow an expression for it to be read exactly. */
  predicate Follows(e: Expr, t: seq<nat>) {
    (t == [] || (t[0] != MINUS && t[0] != TIMES)) && Closes(EndsOpen(e), t)
  }

  lemma ExprIsExact(e: Expr, t: seq<nat>)
    ensures ParseExpr(ExprCodes(e) + t) == Some(t) <==> Follows(e, t)
  {
    if Closes(EndsOpen(e), t) {
      ExprIsRead(e, t);
    } else {
      OpenExprRunsOn(e, t);
    }
  }

  lemma ConditionIsExact(c: Condition, t: seq<nat>)
    ensures ParseCondition(ConditionCodes(c) + t) == Some(t) <==> Follows(c.right, t)
  {
    var rest := [c.relation] + (ExprCodes(c.right) + t);
    assert ConditionCodes(c) + t == ExprCodes(c.left) + rest;
    ExprIsExact(c.left, rest);
    assert rest[1..] == ExprCodes(c.right) + t;
    ExprIsExact(c.right, t);
  }
}
