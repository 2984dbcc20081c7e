/** The statement and declaration grammar lab_parser.py follows, above expressions. It differs from the
    documented one in its semicolons: they separate statements, and a write statement has its own. */
module ProgramGrammar {
  import opened Wrappers
  import opened ExpressionGrammar

  // Parse trees and the codes they yield

  datatype Statement = Read | Write | Assign(value: Expr) | IfElse(condition: Condition, yes: Statement, no: Statement)
  datatype Statements = OneStatement(only: Statement) | MoreStatements(before: Statements, last: Statement)
  datatype Declaration = Name | Function(body: Block)
  datatype Declarations = OneDeclaration(only: Declaration) | MoreDeclarations(before: Declarations, last: Declaration)
  datatype Block = Block(declarations: Declarations, statements: Statements)

  function StatementCodes(t: Statement): seq<nat> {
    match t
    case Read => [READ, LEFT, IDENTIFIER, RIGHT]
    case Write => [WRITE, LEFT, IDENTIFIER, RIGHT, SEMICOLON]
    case Assign(e) => [IDENTIFIER, ASSIGN] + ExprCodes(e)
    case IfElse(c, y, n) => [IF] + ConditionCodes(c) + [THEN] + StatementCodes(y) + [ELSE] + StatementCodes(n)
  }

  function StatementsCodes(t: Statements): seq<nat> {
    match t
    case OneStatement(s) => StatementCodes(s)
    case MoreStatements(b, s) => StatementsCodes(b) + [SEMICOLON] + StatementCodes(s)
  }

  function DeclarationCodes(t: Declaration): seq<nat> {
    match t
    case Name => [INTEGER, IDENTIFIER]
    case Function(b) => [INTEGER, FUNCTION, IDENTIFIER, LEFT, IDENTIFIER, RIGHT, SEMICOLON] + BlockCodes(b)
  }

  function DeclarationsCodes(t: Declarations): seq<nat> {
    match t
    case OneDeclaration(d) => DeclarationCodes(d)
    case MoreDeclarations(b, d) => DeclarationsCodes(b) + [SEMICOLON] + DeclarationCodes(d)
  }

  function BlockCodes(t: Block): seq<nat> {
    [BEGIN] + DeclarationsCodes(t.declarations) + [SEMICOLON] + StatementsCodes(t.statements) + [END]
  }

  // What each nonterminal leaves of its input, or None on an error

  function Then(r: Option<seq<nat>>, code: nat): (t: Option<seq<nat>>)
    ensures t.Some? ==> r.Some? && |t.value| < |r.value|
  {
    if r.None? then None else Expect(r.value, code)
  }

  function ParseAssignment(s: seq<nat>): (r: Option<seq<nat>>)
    ensures r.Some? ==> |r.value| < |s|
  {
    var a := Then(ParseVariable(s), ASSIGN);
    if a.None? then None else ParseExpr(a.value)
  }

  function ParseBracketed(s: seq<nat>): (r: Option<seq<nat>>)
    ensures r.Some? ==> |r.value| < |s|
  {
    var l := Expect(s, LEFT);
    if l.None? then None else Then(ParseVariable(l.value), RIGHT)
  }

  function ParseRead(s: seq<nat>, keyword: nat): (r: Option<seq<nat>>)
    ensures r.Some? ==> |r.value| < |s|
  {
    var k := Expect(s, keyword);
    if k.None? then None else ParseBracketed(k.value)
  }

  function ParseWrite(s: seq<nat>): (r: Option<seq<nat>>)
    ensures r.Some? ==> |r.value| < |s|
  {
    Then(ParseRead(s, WRITE), SEMICOLON)
  }

  function ParseStatement(s: seq<nat>): (r: Option<seq<nat>>)
    ensures r.Some? ==> |r.value| < |s|
    decreases |s|, 1
  {
    if s == [] then None
    else if s[0] == READ then ParseRead(s, READ)
    else if s[0] == WRITE then ParseWrite(s)
    else if s[0] == IF then ParseIf(s)
    else if s[0] == IDENTIFIER then ParseAssignment(s)
    else None
  }

  function ParseIf(s: seq<nat>): (r: Option<seq<nat>>)
    ensures r.Some? ==> |r.value| < |s|
    decreases |s|, 0
  {
    var i := Expect(s, IF);
    if i.None? then None
    else
      var c := ParseCondition(i.value);
      if c.None? then None else ParseBranches(c.value)
  }

  function ParseBranches(s: seq<nat>): (r: Option<seq<nat>>)
    ensures r.Some? ==> |r.value| < |s|
    decreases |s|, 0
  {
    var t := Expect(s, THEN);
    if t.None? then None
    else
      var y := Then(ParseStatement(t.value), ELSE);
      if y.None? then None else ParseStatement(y.value)
  }

  predicate StartsStatement(code: nat) {
    code == READ || code == WRITE || code == IF || code == IDENTIFIER
  }

  function ParseStatements(s: seq<nat>): (r: Option<seq<nat>>)
    ensures r.Some? ==> |r.value| < |s|
  {
    var t := ParseStatement(s);
    if t.None? then None else ParseStatementsA(t.value)
  }

  function ParseStatementsA(s: seq<nat>): (r: Option<seq<nat>>)
    ensures r.Some? ==> |r.value| <= |s|
    decreases |s|
  {
    if |s| > 1 && s[0] == SEMICOLON && StartsStatement(s[1]) then
      var t := ParseStatement(s[1..]);
      if t.None? then None else ParseStatementsA(t.value)
    else
      Some(s)
  }

  function ParseDeclaration(s: seq<nat>): (r: Option<seq<nat>>)
    ensures r.Some? ==> |r.value| < |s|
    decreases |s|, 1
  {
    if |s| < 2 || s[0] != INTEGER then None
    else if s[1] == FUNCTION then ParseFunction(s)
    else ParseVarDeclaration(s)
  }

  function ParseVarDeclaration(s: seq<nat>): (r: Option<seq<nat>>)
    ensures r.Some? ==> |r.value| < |s|
    decreases |s|, 0
  {
    var i := Expect(s, INTEGER);
    if i.None? then None else ParseVariable(i.value)
  }

  function ParseFunction(s: seq<nat>): (r: Option<seq<nat>>)
    ensures r.Some? ==> |r.value| < |s|
    decreases |s|, 0
  {
    var i := Expect(s, INTEGER);
    if i.None? then None else ParseTail(i.value)
  }

  function ParseTail(s: seq<nat>): (r: Option<seq<nat>>)
    ensures r.Some? ==> |r.value| < |s|
    decreases |s|, 0
  {
    var f := Expect(s, FUNCTION);
    if f.None? then None else ParseHeading(f.value)
  }

  function ParseHeading(s: seq<nat>): (r: Option<seq<nat>>)
    ensures r.Some? ==> |r.value| < |s|
    decreases |s|, 1
  {
    var n := ParseVariable(s);
    if n.None? then None else ParseParameter(n.value)
  }

  function ParseParameter(s: seq<nat>): (r: Option<seq<nat>>)
    ensures r.Some? ==> |r.value| < |s|
    decreases |s|, 0
  {
    var p := Then(ParseBracketed(s), SEMICOLON);
    if p.None? then None else ParseBlock(p.value)
  }

  /** What follows a parameter. */
  function ParseBody(s: seq<nat>): (r: Option<seq<nat>>)
    ensures r.Some? ==> |r.value| < |s|
  {
    var p := Then(Expect(s, RIGHT), SEMICOLON);
    if p.None? then None else ParseBlock(p.value)
  }

  function ParseDeclarations(s: seq<nat>): (r: Option<seq<nat>>)
    ensures r.Some? ==> |r.value| < |s|
    decreases |s|, 3
  {
    var d := ParseDeclaration(s);
    if d.None? then None else ParseDeclarationsA(d.value)
  }

  function ParseDeclarationsA(s: seq<nat>): (r: Option<seq<nat>>)
    ensures r.Some? ==> |r.value| <= |s|
    decreases |s|, 2
  {
    if |s| > 1 && s[0] == SEMICOLON && s[1] == INTEGER then
      var d := ParseDeclaration(s[1..]);
      if d.None? then None else ParseDeclarationsA(d.value)
    else
      Some(s)
  }

  function ParseBlock(s: seq<nat>): (r: Option<seq<nat>>)
    ensures r.Some? ==> |r.value| < |s|
    decreases |s|, 4
  {
    var b := Expect(s, BEGIN);
    if b.None? then None
    else
      var d := Then(ParseDeclarations(b.value), SEMICOLON);
      if d.None? then None else Then(ParseStatements(d.value), END)
  }

  /** What follows the declarations of a block. */
  function ParseBlockTail(s: seq<nat>): (r: Option<seq<nat>>)
    ensures r.Some? ==> |r.value| < |s|
  {
    var d := Expect(s, SEMICOLON);
    if d.None? then None else Then(ParseStatements(d.value), END)
  }

  // Soundness: what is consumed derives

  lemma BracketedIsSound(s: seq<nat>)
    requires ParseBracketed(s).Some?
    ensures s == [LEFT, IDENTIFIER, RIGHT] + ParseBracketed(s).value
  {
    var l := Expect(s, LEFT).value;
    var i := ParseVariable(l).value;
    assert s[1..] == l && l[1..] == i && i[1..] == ParseBracketed(s).value;
  }

  lemma ReadIsSound(s: seq<nat>, keyword: nat)
    requires ParseRead(s, keyword).Some?
    ensures s == [keyword, LEFT, IDENTIFIER, RIGHT] + ParseRead(s, keyword).value
  {
    BracketedIsSound(s[1..]);
    assert s == [keyword] + s[1..];
  }

  lemma {:induction false} StatementIsSound(s: seq<nat>) returns (t: Statement)
    requires ParseStatement(s).Some?
    ensures s == StatementCodes(t) + ParseStatement(s).value
    decreases |s|, 1
  {
    if s[0] == READ {
      ReadIsSound(s, READ);
      t := Read;
    } else if s[0] == WRITE {
      ReadIsSound(s, WRITE);
      t := Write;
      var r := ParseRead(s, WRITE).value;
      assert r == [SEMICOLON] + r[1..];
    } else if s[0] == IF {
      t := IfIsSound(s);
    } else {
      var r := ParseVariable(s).value;
      var e := ExprIsSound(r[1..]);
      t := Assign(e);
      assert s == [IDENTIFIER, ASSIGN] + r[1..];
    }
  }

  lemma {:induction false} IfIsSound(s: seq<nat>) returns (t: Statement)
    requires ParseIf(s).Some?
    ensures s == StatementCodes(t) + ParseIf(s).value
    decreases |s|, 0
  {
    var i := s[1..];
    var c := ConditionIsSound(i);
    var b := ParseCondition(i).value;
    assert ParseBranches(b).Some?;
    var y := b[1..];
    var yes := StatementIsSound(y);
    var n := Then(ParseStatement(y), ELSE).value;
    var no := StatementIsSound(n);
    t := IfElse(c, yes, no);
    Split(b, THEN, y);
    Split(ParseStatement(y).value, ELSE, n);
    Split(s, IF, i);
    IfPieces(s, ConditionCodes(c), StatementCodes(yes), StatementCodes(no), i, y, n, ParseIf(s).value);
  }

  lemma Split(s: seq<nat>, code: nat, rest: seq<nat>)
    requires Expect(s, code) == Some(rest)
    ensures s == [code] + rest
  {
  }

  lemma IfPieces(s: seq<nat>, c: seq<nat>, yes: seq<nat>, no: seq<nat>, i: seq<nat>, y: seq<nat>, n: seq<nat>,
                 rest: seq<nat>)
    requires s == [IF] + i && i == c + ([THEN] + y) && y == yes + ([ELSE] + n) && n == no + rest
    ensures s == [IF] + c + [THEN] + yes + [ELSE] + no + rest
  {
  }

  lemma {:induction false} StatementsAreSound(before: Statements, s: seq<nat>) returns (t: Statements)
    requires ParseStatementsA(s).Some?
    ensures StatementsCodes(before) + s == StatementsCodes(t) + ParseStatementsA(s).value
    decreases |s|
  {
    if |s| > 1 && s[0] == SEMICOLON && StartsStatement(s[1]) {
      var last := StatementIsSound(s[1..]);
      var rest := ParseStatement(s[1..]).value;
      t := StatementsAreSound(MoreStatements(before, last), rest);
      Regroup(StatementsCodes(before), SEMICOLON, StatementCodes(last), rest, s);
    } else {
      t := before;
    }
  }

  lemma {:induction false} DeclarationIsSound(s: seq<nat>) returns (t: Declaration)
    requires ParseDeclaration(s).Some?
    ensures s == DeclarationCodes(t) + ParseDeclaration(s).value
    decreases |s|, 1
  {
    if s[1] == FUNCTION {
      var body := FunctionIsSound(s);
      t := Function(body);
    } else {
      t := Name;
      var rest := s[1..];
      Split(s, INTEGER, rest);
      Split(rest, IDENTIFIER, rest[1..]);
    }
  }

  lemma {:induction false} FunctionIsSound(s: seq<nat>) returns (body: Block)
    requires ParseFunction(s).Some?
    ensures s == DeclarationCodes(Function(body)) + ParseFunction(s).value
    decreases |s|, 0
  {
    var f := s[1..];
    assert ParseTail(f).Some?;
    body := HeadingIsSound(f[1..]);
    Split(f, FUNCTION, f[1..]);
    Split(s, INTEGER, f);
  }

  lemma {:induction false} HeadingIsSound(s: seq<nat>) returns (body: Block)
    requires ParseHeading(s).Some?
    ensures s == [IDENTIFIER, LEFT, IDENTIFIER, RIGHT, SEMICOLON] + BlockCodes(body) + ParseHeading(s).value
    decreases |s|, 0
  {
    var n := s[1..];
    assert ParseParameter(n).Some?;
    var r := ParseBracketed(n).value;
    body := BlockIsSound(r[1..]);
    BracketedIsSound(n);
    Split(r, SEMICOLON, r[1..]);
    Split(s, IDENTIFIER, n);
  }

  lemma {:induction false} DeclarationsAreSound(before: Declarations, s: seq<nat>) returns (t: Declarations)
    requires ParseDeclarationsA(s).Some?
    ensures DeclarationsCodes(before) + s == DeclarationsCodes(t) + ParseDeclarationsA(s).value
    decreases |s|, 1
  {
    if |s| > 1 && s[0] == SEMICOLON && s[1] == INTEGER {
      var last := DeclarationIsSound(s[1..]);
      var rest := ParseDeclaration(s[1..]).value;
      t := DeclarationsAreSound(MoreDeclarations(before, last), rest);
      Regroup(DeclarationsCodes(before), SEMICOLON, DeclarationCodes(last), rest, s);
    } else {
      t := before;
    }
  }

  lemma {:induction false} BlockIsSound(s: seq<nat>) returns (t: Block)
    requires ParseBlock(s).Some?
    ensures s == BlockCodes(t) + ParseBlock(s).value
    decreases |s|, 2
  {
    var b := Expect(s, BEGIN).value;
    var first := DeclarationIsSound(b);
    var afterFirst := ParseDeclaration(b).value;
    var ds := DeclarationsAreSound(OneDeclaration(first), afterFirst);
    var d := Then(ParseDeclarations(b), SEMICOLON).value;
    var start := StatementIsSound(d);
    var afterStart := ParseStatement(d).value;
    var ss := StatementsAreSound(OneStatement(start), afterStart);
    t := Block(ds, ss);
    var rest := ParseBlock(s).value;
    Split(s, BEGIN, b);
    Split(ParseDeclarations(b).value, SEMICOLON, d);
    Split(ParseStatements(d).value, END, rest);
    BlockPieces(s, DeclarationsCodes(ds), StatementsCodes(ss), b, d, rest);
  }

  lemma BlockPieces(s: seq<nat>, ds: seq<nat>, ss: seq<nat>, b: seq<nat>, d: seq<nat>, rest: seq<nat>)
    requires s == [BEGIN] + b && b == ds + ([SEMICOLON] + d) && d == ss + ([END] + rest)
    ensures s == [BEGIN] + ds + [SEMICOLON] + ss + [END] + rest
  {
  }

  // Completeness: every derivable string is consumed exactly, unless what follows continues it

  /** What may follow a statement for it to be read exactly. */
  predicate StatementFollows(t: Statement, rest: seq<nat>) {
    match t
    case Assign(e) => Follows(e, rest)
    case IfElse(_, _, no) => StatementFollows(no, rest)
    case _ => true
  }

  predicate ClosesStatement(code: nat) {
    code == ELSE || code == SEMICOLON || code == END
  }

  lemma {:induction false} SafelyClosed(t: Statement, code: nat, rest: seq<nat>)
    requires ClosesStatement(code)
    ensures StatementFollows(t, [code] + rest)
  {
    if t.IfElse? { SafelyClosed(t.no, code, rest); }
  }

  lemma ExpectFirst(code: nat, rest: seq<nat>)
    ensures Expect([code] + rest, code) == Some(rest)
  {
    assert ([code] + rest)[1..] == rest;
  }

  lemma BracketedIsRead(rest: seq<nat>)
    ensures ParseBracketed([LEFT, IDENTIFIER, RIGHT] + rest) == Some(rest)
  {
    ExpectFirst(RIGHT, rest);
    ExpectFirst(IDENTIFIER, [RIGHT] + rest);
    ExpectFirst(LEFT, [IDENTIFIER] + ([RIGHT] + rest));
    assert [LEFT, IDENTIFIER, RIGHT] + rest == [LEFT] + ([IDENTIFIER] + ([RIGHT] + rest));
  }

  lemma ReadIsRead(keyword: nat, rest: seq<nat>)
    ensures ParseRead([keyword, LEFT, IDENTIFIER, RIGHT] + rest, keyword) == Some(rest)
  {
    BracketedIsRead(rest);
    ExpectFirst(keyword, [LEFT, IDENTIFIER, RIGHT] + rest);
    assert [keyword, LEFT, IDENTIFIER, RIGHT] + rest == [keyword] + ([LEFT, IDENTIFIER, RIGHT] + rest);
  }

  lemma AssignmentIsRead(e: Expr, rest: seq<nat>)
    ensures ParseStatement(StatementCodes(Assign(e)) + rest) == ParseExpr(ExprCodes(e) + rest)
  {
    var value := ExprCodes(e) + rest;
    ExpectFirst(ASSIGN, value);
    ExpectFirst(IDENTIFIER, [ASSIGN] + value);
    assert StatementCodes(Assign(e)) + rest == [IDENTIFIER] + ([ASSIGN] + value);
  }

  lemma BranchesAreRead(yes: seq<nat>, no: seq<nat>)
    requires ParseStatement(yes + ([ELSE] + no)) == Some([ELSE] + no)
    ensures ParseBranches([THEN] + (yes + ([ELSE] + no))) == ParseStatement(no)
  {
    ExpectFirst(ELSE, no);
    ExpectFirst(THEN, yes + ([ELSE] + no));
  }

  lemma ConditionThenBranches(c: Condition, branches: seq<nat>)
    ensures ParseStatement([IF] + (ConditionCodes(c) + ([THEN] + branches))) == ParseBranches([THEN] + branches)
  {
    ConditionIsExact(c, [THEN] + branches);
    ExpectFirst(IF, ConditionCodes(c) + ([THEN] + branches));
  }

  lemma IfGroups(c: seq<nat>, yes: seq<nat>, no: seq<nat>, rest: seq<nat>)
    ensures [IF] + c + [THEN] + yes + [ELSE] + no + rest == [IF] + (c + ([THEN] + (yes + ([ELSE] + (no + rest)))))
  {
  }

  /** Reading an if statement comes down to reading its last branch. */
  lemma {:induction false} IfIsRead(t: Statement, rest: seq<nat>)
    requires t.IfElse?
    ensures ParseStatement(StatementCodes(t) + rest) == ParseStatement(StatementCodes(t.no) + rest)
    decreases t, 0
  {
    var yes, no := StatementCodes(t.yes), StatementCodes(t.no) + rest;
    SafelyClosed(t.yes, ELSE, no);
    StatementIsExact(t.yes, [ELSE] + no);
    BranchesAreRead(yes, no);
    ConditionThenBranches(t.condition, yes + ([ELSE] + no));
    IfGroups(ConditionCodes(t.condition), yes, StatementCodes(t.no), rest);
  }

  lemma {:induction false} StatementIsExact(t: Statement, rest: seq<nat>)
    ensures ParseStatement(StatementCodes(t) + rest) == Some(rest) <==> StatementFollows(t, rest)
    decreases t, 1
  {
    match t
    case Read => ReadIsRead(READ, rest);
    case Write =>
      ReadIsRead(WRITE, [SEMICOLON] + rest);
      ExpectFirst(SEMICOLON, rest);
      assert StatementCodes(t) + rest == [WRITE, LEFT, IDENTIFIER, RIGHT] + ([SEMICOLON] + rest);
    case Assign(e) =>
      AssignmentIsRead(e, rest);
      ExprIsExact(e, rest);
    case IfElse(_, _, no) =>
      IfIsRead(t, rest);
      StatementIsExact(no, rest);
  }

  /** Where more may follow a statement it runs into it. */
  lemma {:induction false} StatementRunsOn(t: Statement, rest: seq<nat>)
    requires !StatementFollows(t, rest)
    ensures FallsShort(ParseStatement(StatementCodes(t) + rest), rest)
  {
    match t
    case Assign(e) =>
      AssignmentIsRead(e, rest);
      if Closes(EndsOpen(e), rest) { ExprIsRead(e, rest); } else { OpenExprRunsOn(e, rest); }
    case IfElse(_, _, no) =>
      IfIsRead(t, rest);
      StatementRunsOn(no, rest);
  }

  function LastOf(t: Statements): Statement {
    match t
    case OneStatement(s) => s
    case MoreStatements(_, s) => s
  }

  lemma FirstCodeStarts(t: Statement)
    ensures StatementCodes(t) != [] && StartsStatement(StatementCodes(t)[0])
  {
  }

  function ContinueStatements(r: Option<seq<nat>>): Option<seq<nat>> {
    if r.None? then None else ParseStatementsA(r.value)
  }

  /** Reading a list's codes leaves its last statement, and then the loop, to decide about the rest. */
  lemma {:induction false} StatementsAreRead(t: Statements, rest: seq<nat>)
    ensures ParseStatements(StatementsCodes(t) + rest) ==
      ContinueStatements(ParseStatement(StatementCodes(LastOf(t)) + rest))
  {
    if t.MoreStatements? {
      var last := StatementCodes(t.last) + rest;
      assert StatementsCodes(t) + rest == StatementsCodes(t.before) + ([SEMICOLON] + last);
      StatementsAreRead(t.before, [SEMICOLON] + last);
      SafelyClosed(LastOf(t.before), SEMICOLON, last);
      StatementIsExact(LastOf(t.before), [SEMICOLON] + last);
      FirstCodeStarts(t.last);
      assert ([SEMICOLON] + last)[1..] == last;
    }
  }

  /** What may follow a list of statements. */
  predicate StatementsFollow(t: Statements, rest: seq<nat>) {
    StatementFollows(LastOf(t), rest) && !(|rest| > 1 && rest[0] == SEMICOLON && StartsStatement(rest[1]))
  }

  lemma StatementsAreExact(t: Statements, rest: seq<nat>)
    ensures ParseStatements(StatementsCodes(t) + rest) == Some(rest) <==> StatementsFollow(t, rest)
  {
    StatementsAreRead(t, rest);
    if StatementFollows(LastOf(t), rest) {
      StatementIsExact(LastOf(t), rest);
    } else {
      StatementRunsOn(LastOf(t), rest);
    }
  }

  lemma NameIsRead(rest: seq<nat>)
    ensures ParseDeclaration(DeclarationCodes(Name) + rest) == Some(rest)
  {
    ExpectFirst(IDENTIFIER, rest);
    ExpectFirst(INTEGER, [IDENTIFIER] + rest);
    assert DeclarationCodes(Name) + rest == [INTEGER] + ([IDENTIFIER] + rest);
  }

  lemma HeadingIsRead(body: seq<nat>)
    ensures ParseHeading([IDENTIFIER] + ([LEFT, IDENTIFIER, RIGHT] + ([SEMICOLON] + body))) == ParseBlock(body)
  {
    ExpectFirst(SEMICOLON, body);
    BracketedIsRead([SEMICOLON] + body);
    ExpectFirst(IDENTIFIER, [LEFT, IDENTIFIER, RIGHT] + ([SEMICOLON] + body));
  }

  lemma FunctionIsRead(heading: seq<nat>)
    ensures ParseDeclaration([INTEGER] + ([FUNCTION] + heading)) == ParseHeading(heading)
  {
    ExpectFirst(FUNCTION, heading);
    ExpectFirst(INTEGER, [FUNCTION] + heading);
    assert ([INTEGER] + ([FUNCTION] + heading))[1] == FUNCTION;
    assert ParseTail([FUNCTION] + heading) == ParseHeading(heading);
  }

  lemma FunctionGroups(block: seq<nat>, rest: seq<nat>)
    ensures [INTEGER, FUNCTION, IDENTIFIER, LEFT, IDENTIFIER, RIGHT, SEMICOLON] + block + rest ==
      [INTEGER] + ([FUNCTION] + ([IDENTIFIER] + ([LEFT, IDENTIFIER, RIGHT] + ([SEMICOLON] + (block + rest)))))
  {
  }

  lemma {:induction false} DeclarationIsRead(t: Declaration, rest: seq<nat>)
    ensures ParseDeclaration(DeclarationCodes(t) + rest) == Some(rest)
    decreases t, 0
  {
    match t
    case Name => NameIsRead(rest);
    case Function(b) =>
      var body := BlockCodes(b) + rest;
      BlockIsRead(b, rest);
      HeadingIsRead(body);
      FunctionIsRead([IDENTIFIER] + ([LEFT, IDENTIFIER, RIGHT] + ([SEMICOLON] + body)));
      FunctionGroups(BlockCodes(b), rest);
  }

  lemma {:induction false} DeclarationsAreRead(t: Declarations, rest: seq<nat>)
    ensures ParseDeclarations(DeclarationsCodes(t) + rest) == ParseDeclarationsA(rest)
    decreases t, 0
  {
    match t
    case OneDeclaration(d) => DeclarationIsRead(d, rest);
    case MoreDeclarations(b, d) =>
      var last := DeclarationCodes(d) + rest;
      assert DeclarationsCodes(t) + rest == DeclarationsCodes(b) + ([SEMICOLON] + last);
      DeclarationsAreRead(b, [SEMICOLON] + last);
      DeclarationIsRead(d, rest);
      assert ([SEMICOLON] + last)[1..] == last;
  }

  lemma {:induction false} FirstListCodeStarts(t: Statements)
    ensures StatementsCodes(t) != [] && StartsStatement(StatementsCodes(t)[0])
  {
    match t
    case OneStatement(s) => FirstCodeStarts(s);
    case MoreStatements(b, _) => FirstListCodeStarts(b);
  }

  /** A block is read exactly whatever follows. */
  lemma {:induction false} BlockIsRead(t: Block, rest: seq<nat>)
    ensures ParseBlock(BlockCodes(t) + rest) == Some(rest)
    decreases t, 0
  {
    var statements := StatementsCodes(t.statements) + ([END] + rest);
    var declarations := DeclarationsCodes(t.declarations) + ([SEMICOLON] + statements);
    assert BlockCodes(t) + rest == [BEGIN] + declarations;
    DeclarationsAreRead(t.declarations, [SEMICOLON] + statements);
    FirstListCodeStarts(t.statements);
    assert ([SEMICOLON] + statements)[1] == StatementsCodes(t.statements)[0];
    SafelyClosed(LastOf(t.statements), END, rest);
    StatementsAreExact(t.statements, [END] + rest);
    ExpectFirst(BEGIN, declarations);
    ExpectFirst(SEMICOLON, statements);
    ExpectFirst(END, rest);
  }

  /** The string begins with a block of the grammar. */
  ghost predicate BeginsWithBlock(s: seq<nat>) {
    exists t: Block, rest: seq<nat> :: Derives(s, t, rest)
  }

  predicate Derives(s: seq<nat>, t: Block, rest: seq<nat>) {
    s == BlockCodes(t) + rest
  }

  /** The parser accepts exactly the derivable programs. */
  lemma BlockIsExact(s: seq<nat>)
    ensures ParseBlock(s).Some? <==> BeginsWithBlock(s)
  {
    if ParseBlock(s).Some? {
      var t := BlockIsSound(s);
      assert Derives(s, t, ParseBlock(s).value);
    }
    if t: Block, rest: seq<nat> :| Derives(s, t, rest) {
      BlockIsRead(t, rest);
    }
  }

  /** A semicolon behind the last statement, as behind every other, is an error. */
  lemma TrailingSemicolonIsRejected(ds: Declarations, ss: Statements, rest: seq<nat>)
    ensures
      var statements := StatementsCodes(ss) + ([SEMICOLON] + ([END] + rest));
      !BeginsWithBlock([BEGIN] + (DeclarationsCodes(ds) + ([SEMICOLON] + statements)))
  {
    var tail := [SEMICOLON] + ([END] + rest);
    var statements := StatementsCodes(ss) + tail;
    var declarations := DeclarationsCodes(ds) + ([SEMICOLON] + statements);
    DeclarationsAreRead(ds, [SEMICOLON] + statements);
    FirstListCodeStarts(ss);
    assert ([SEMICOLON] + statements)[1] == StatementsCodes(ss)[0];
    SafelyClosed(LastOf(ss), SEMICOLON, [END] + rest);
    StatementsAreExact(ss, tail);
    ExpectFirst(BEGIN, declarations);
    ExpectFirst(SEMICOLON, statements);
    BlockIsExact([BEGIN] + declarations);
  }

  // A program in the numbers of the token file

  /** integer k; integer function f(n); begin integer m; m := n - 1 end */
  function SampleDeclarations(): Declarations {
    var value := Minus(One(Single(Variable)), Single(Constant));
    MoreDeclarations(OneDeclaration(Name), Function(Block(OneDeclaration(Name), OneStatement(Assign(value)))))
  }

  /** read(k); if k < 10 then k := f(k) * 2 else write(k); */
  function SampleStatements(): Statements {
    var k := One(Single(Variable));
    var product := One(Times(Single(Call(k)), Constant));
    MoreStatements(OneStatement(Read), IfElse(Compare(k, 15, One(Single(Constant))), Assign(product), Write))
  }

  lemma SampleBodyCodes()
    ensures var value := Minus(One(Single(Variable)), Single(Constant));
      BlockCodes(Block(OneDeclaration(Name), OneStatement(Assign(value)))) == [1, 3, 10, 23, 10, 20, 10, 18, 11, 2]
  {
    var k := One(Single(Variable));
    var value := Minus(k, Single(Constant));
    assert ExprCodes(k) == [10];
    assert ExprCodes(value) == [10, 18, 11];
    assert StatementsCodes(OneStatement(Assign(value))) == [10, 20, 10, 18, 11];
  }

  lemma SampleDeclarationCodes()
    ensures DeclarationsCodes(SampleDeclarations()) ==
      [3, 10, 23, 3, 7, 10, 21, 10, 22, 23, 1, 3, 10, 23, 10, 20, 10, 18, 11, 2]
  {
    SampleBodyCodes();
    hide BlockCodes;
    var ds := SampleDeclarations();
    assert DeclarationsCodes(ds.before) == [3, 10];
    assert DeclarationCodes(ds.last) == [3, 7, 10, 21, 10, 22, 23, 1, 3, 10, 23, 10, 20, 10, 18, 11, 2];
  }

  lemma SampleProductCodes()
    ensures ExprCodes(One(Times(Single(Call(One(Single(Variable)))), Constant))) == [10, 21, 10, 22, 19, 11]
  {
    var k := One(Single(Variable));
    assert ExprCodes(k) == [10];
    assert FactorCodes(Call(k)) == [10, 21, 10, 22];
  }

  lemma SampleConditionCodes()
    ensures ConditionCodes(Compare(One(Single(Variable)), 15, One(Single(Constant)))) == [10, 15, 11]
  {
    assert ExprCodes(One(Single(Variable))) == [10] && ExprCodes(One(Single(Constant))) == [11];
  }

  lemma SampleStatementCodes()
    ensures StatementsCodes(SampleStatements()) ==
      [8, 21, 10, 22, 23, 4, 10, 15, 11, 5, 10, 20, 10, 21, 10, 22, 19, 11, 6, 9, 21, 10, 22, 23]
  {
    SampleProductCodes();
    SampleConditionCodes();
    hide ExprCodes, ConditionCodes;
    var branch := SampleStatements().last;
    assert StatementCodes(branch.yes) == [10, 20, 10, 21, 10, 22, 19, 11];
    assert StatementCodes(branch) == [4, 10, 15, 11, 5, 10, 20, 10, 21, 10, 22, 19, 11, 6, 9, 21, 10, 22, 23];
    assert StatementsCodes(SampleStatements().before) == [8, 21, 10, 22];
  }

  /** The parser accepts that program, in the numbers its tokens have. */
  lemma SampleIsAccepted()
    ensures ParseBlock([1] +
      [3, 10, 23, 3, 7, 10, 21, 10, 22, 23, 1, 3, 10, 23, 10, 20, 10, 18, 11, 2] + [23] +
      [8, 21, 10, 22, 23, 4, 10, 15, 11, 5, 10, 20, 10, 21, 10, 22, 19, 11, 6, 9, 21, 10, 22, 23] + [2]) == Some([])
  {
    SampleDeclarationCodes();
    SampleStatementCodes();
    hide ParseBlock;
    var sample := Block(SampleDeclarations(), SampleStatements());
    BlockIsRead(sample, []);
    assert BlockCodes(sample) + [] == BlockCodes(sample);
  }
}
