/** The recursive-descent parser of Compiler/lab-py/lab_parser.py: token cursor, symbol tables and
    one method per nonterminal. */
module LabParser {
  import opened Wrappers
  import opened ExpressionGrammar
  import opened ProgramGrammar
  import opened SymbolTables
  import opened TokenNames

  /** Whether a call came back, or stopped the program with a Python exception. */
  datatype Status = Done | Crashed {
    predicate IsFailure() { Crashed? }
    function PropagateFailure(): Status { this }
  }

  class Parser {
    const tokens: seq<Token>
    var pos: nat
    var line: nat
    var reports: seq<Report>
    var variables: seq<VariableRow>
    var procedures: seq<ProcedureRow>
    var nowProcedure: Name
    var procedureLevel: nat

    ghost predicate Valid()
      reads this
    {
      && Terminated(tokens) && NotPastEof(tokens, pos)
      && line == 1 + Lines(tokens, pos)
      && GoodVariables(variables) && GoodProcedures(procedures, line)
    }

    ghost function Rest(): seq<nat>
      reads this
      requires Valid()
    {
      CodesFrom(tokens, pos)
    }

    ghost function Remaining(): nat
      reads this
      requires Valid()
    {
      |tokens| - pos
    }

    /** What every parsing method keeps, whether it comes back or stops the program. */
    twostate predicate Keeps(status: Status)
      reads this
    {
      && Valid() && old(pos) <= pos
      && old(variables) <= variables && Keep(old(procedures), procedures)
      && Faults(old(reports)) <= Faults(reports)
      && (status.Done? ==> nowProcedure == old(nowProcedure) && procedureLevel == old(procedureLevel))
    }

    twostate predicate Clean(status: Status)
      reads this
    {
      status.Done? && Faults(reports) == Faults(old(reports))
    }

    /** The method recognises what a grammar function does: it comes back without a new syntax error
        exactly when that function succeeds, and then the same codes are left. */
    twostate predicate Recognises(status: Status, new rest: Option<seq<nat>>)
      requires Valid()
      reads this
    {
      && (Clean(status) <==> rest.Some?)
      && (rest.Some? ==> Rest() == rest.value)
    }

    // What the tables mirror: the names read so far

    ghost function Scope(): seq<string>
      reads this
      requires Valid()
    {
      ReadTo(tokens, pos).scopes
    }

    ghost function Passed(): seq<nat>
      reads this
      requires Valid()
    {
      ReadTo(tokens, pos).before
    }

    /** Without a syntax error so far, the reports and the tables are what the token list demands. */
    ghost predicate Tabled()
      reads this
      requires Valid()
    {
      Faults(reports) == 0 ==>
        var r := ReadTo(tokens, pos);
        reports == r.complaints && variables == r.variables && procedures == r.procedures
    }

    /** And the current procedure and level are those of the innermost function around. */
    ghost predicate Mirrors()
      reads this
      requires Valid()
    {
      Tabled() && (Faults(reports) == 0 ==>
        Scope() != [] && nowProcedure == Top(Scope()) && procedureLevel == Depth(Scope()))
    }

    /** A name here is a call or a use. */
    ghost predicate OpenHere()
      reads this
      requires Valid()
    {
      Faults(reports) == 0 ==> Open(Passed())
    }

    /** The tokens just passed are these, or else something other. */
    ghost predicate Behind(tail: seq<nat>, yes: bool)
      reads this
      requires Valid()
    {
      Faults(reports) == 0 ==> (Ends(Passed(), tail) <==> yes)
    }

    /** A method that comes back leaves the tables mirrored and the scopes as they were. */
    twostate predicate Tracks(status: Status)
      requires old(Valid()) && Valid()
      reads this
    {
      status.Done? ==> Mirrors() && (Faults(reports) == 0 ==> Scope() == old(Scope()))
    }

    /** Looking for the current token changes nothing that is mirrored. */
    twostate predicate Stays()
      requires old(Valid()) && Valid()
      reads this
    {
      && ReadTo(tokens, pos) == old(ReadTo(tokens, pos))
      && (old(Tabled()) ==> Tabled()) && (old(Mirrors()) ==> Mirrors())
      && (old(OpenHere()) ==> OpenHere()) && Scope() == old(Scope())
      && (old(Behind([FUNCTION, IDENTIFIER], false)) ==> Behind([FUNCTION, IDENTIFIER], false))
      && (old(Behind([FUNCTION, IDENTIFIER], true)) ==> Behind([FUNCTION, IDENTIFIER], true))
    }

    /** Passing a token that is no name. */
    twostate predicate Passes(code: nat)
      requires old(Valid()) && Valid()
      reads this
    {
      && (old(Tabled()) ==> Tabled())
      && (code != END ==> (old(Mirrors()) ==> Mirrors()) && Scope() == old(Scope()))
      && (code == END && old(Scope()) != [] ==> Scope() == old(Scope())[..|old(Scope())| - 1])
      && (code !in {INTEGER, FUNCTION, LEFT} ==> OpenHere())
      && (code == INTEGER ==> Behind([INTEGER], true))
      && (code == FUNCTION ==> Behind([FUNCTION], true))
      && (code in {READ, WRITE} ==> Behind([FUNCTION, IDENTIFIER], false))
      && (code == LEFT ==>
           && (old(Behind([FUNCTION, IDENTIFIER], false)) ==> OpenHere())
           && (old(Behind([FUNCTION, IDENTIFIER], true)) ==> Behind([FUNCTION, IDENTIFIER, LEFT], true)))
    }

    constructor (tokens: seq<Token>)
      requires Terminated(tokens)
      ensures Valid() && this.tokens == tokens && pos == 0 && line == 1 && Faults(reports) == 0
      ensures nowProcedure == Some("main") && procedureLevel == 0 && Mirrors()
    {
      this.tokens := tokens;
      pos, line, reports := 0, 1, [];
      variables, procedures := [], [];
      nowProcedure, procedureLevel := Some("main"), 0;
      new;
      NothingRead(tokens);
    }

    // The token cursor

    /** One end of line is passed and counted. */
    method SkipLine()
      requires Valid() && tokens[pos].code == EOLN
      modifies this`pos, this`line
      ensures Keeps(Done) && Stays() && pos == old(pos) + 1 && Rest() == old(Rest())
    {
      hide ReadTo, Ends, Open;
      PassToken(tokens, pos);
      line := line + 1;
      pos := pos + 1;
    }

    method CurrentCode() returns (code: nat)
      requires Valid()
      modifies this`pos, this`line
      ensures Keeps(Done) && code == tokens[pos].code && code != EOLN
      ensures Rest() == old(Rest()) == [code] + CodesFrom(tokens, pos + 1)
      ensures old(tokens[pos].code) != EOLN ==> pos == old(pos)
      ensures Stays()
      decreases Remaining()
    {
      hide ReadTo, Tabled, Mirrors, OpenHere, Behind;
      if tokens[pos].code == EOLN {
        SkipLine();
        code := CurrentCode();
      } else {
        code := tokens[pos].code;
      }
    }

    /** pos += 1 on a token. */
    method Step()
      requires Valid() && tokens[pos].code != EOLN && tokens[pos].code != EOF
      modifies this`pos
      ensures Keeps(Done) && pos == old(pos) + 1
      ensures old(tokens[pos].code) != IDENTIFIER ==> Passes(old(tokens[pos].code))
      ensures old(tokens[pos].code) == IDENTIFIER ==>
        Names(old(ReadTo(tokens, pos)), ReadTo(tokens, pos), NameRole(old(Passed()), Rest()), old(tokens[pos].word),
              line)
    {
      hide ReadTo, Ends, Names, NameRole;
      ghost var code, before := tokens[pos].code, Passed();
      if code == IDENTIFIER {
        PassName(tokens, pos);
        RoleIsRead(tokens, pos);
      } else {
        PassToken(tokens, pos);
      }
      EndsMore(before, code, INTEGER, INTEGER, INTEGER);
      EndsMore(before, code, FUNCTION, IDENTIFIER, LEFT);
      pos := pos + 1;
    }

    /** advanced, which no caller applies to the end of the input. */
    method Advanced()
      requires Valid() && Rest() != [] && Rest()[0] != EOF
      modifies this`pos, this`line
      ensures Keeps(Done) && pos > old(pos) && Rest() == old(Rest())[1..]
      ensures old(tokens[pos].code) != EOLN ==> pos == old(pos) + 1
      ensures old(Rest())[0] != IDENTIFIER ==> Passes(old(Rest())[0])
      ensures old(Rest())[0] == IDENTIFIER ==>
        Names(old(ReadTo(tokens, pos)), ReadTo(tokens, pos), NameRole(old(Passed()), Rest()), tokens[pos - 1].word,
              line)
    {
      hide ReadTo, Ends, Open, Names, NameRole, Tabled, Mirrors, OpenHere, Behind;
      var code := CurrentCode();
      Step();
    }

    /** now_more_one: the code after the current one, or an IndexError at the end of the list. */
    function NowMoreOne(temp: nat): (code: Option<nat>)
      reads this
      requires Valid() && pos + temp <= |tokens|
      ensures code == var rest := CodesFrom(tokens, pos + temp); if rest == [] then None else Some(rest[0])
      decreases |tokens| - temp
    {
      if pos + temp == |tokens| then None
      else if tokens[pos + temp].code == EOLN then NowMoreOne(temp + 1)
      else Some(tokens[pos + temp].code)
    }

    /** now_more_one(1) where another token must follow. */
    method Following() returns (code: nat)
      requires Valid() && tokens[pos].code != EOLN && tokens[pos].code != EOF
      ensures |Rest()| > 1 && Rest()[0] == tokens[pos].code && code == Rest()[1]
    {
      LastIsKept(tokens, pos + 1);
      code := NowMoreOne(1).value;
    }

    method ErrPrint(report: Report)
      requires Valid()
      modifies this`reports
      ensures Keeps(Done) && reports == old(reports) + [report]
      ensures Faults(reports) == Faults(old(reports)) + if report.Syntax? then 1 else 0
      ensures report.Syntax? ==> Mirrors() && OpenHere()
    {
      assert (reports + [report])[..|reports|] == reports;
      reports := reports + [report];
    }

    /** The step the methods repeat: consume an expected token, or report a syntax error. */
    method Accept(expected: nat) returns (found: bool)
      requires Valid() && expected != EOF && expected != IDENTIFIER
      modifies this`pos, this`line, this`reports
      ensures Keeps(Done) && old(Rest()) != [] && (found <==> old(Rest())[0] == expected)
      ensures found ==> reports == old(reports) && pos > old(pos) && Rest() == old(Rest())[1..] && Passes(expected)
      ensures !found ==> reports == old(reports) + [Syntax(line)] && Faults(reports) == Faults(old(reports)) + 1
      ensures !found ==> Tabled() && Mirrors()
    {
      hide ReadTo, Ends, Open;
      var code := CurrentCode();
      found := code == expected;
      if found {
        Advanced();
      } else {
        ErrPrint(Syntax(line));
      }
    }

    // Declarations and uses

    /** The input ends with a token, so there is always a current one. */
    lemma RestIsNotEmpty()
      requires Valid()
      ensures Rest() != []
    {
      LastIsKept(tokens, pos);
    }

    /** identifier: the word, or None after a syntax error. */
    method Identifier() returns (word: Name)
      requires Valid()
      modifies this`pos, this`line, this`reports
      ensures Keeps(Done) && Rest() != [] && old(Rest()) != []
      ensures word.Some? <==> old(Rest())[0] == IDENTIFIER
      ensures word.Some? ==> reports == old(reports) && pos > old(pos) && Rest() == old(Rest())[1..]
      ensures word.Some? ==> word.value == tokens[pos - 1].word
      ensures word.Some? ==>
        Names(old(ReadTo(tokens, pos)), ReadTo(tokens, pos), NameRole(old(Passed()), Rest()), word.value, line)
      ensures word.None? ==> Faults(reports) > Faults(old(reports))
    {
      hide ReadTo, Ends, Open, Names, NameRole;
      var code := CurrentCode();
      if code == IDENTIFIER {
        word := Some(tokens[pos].word);
        Advanced();
      } else {
        ErrPrint(Syntax(line));
        word := None;
      }
      RestIsNotEmpty();
    }

    method FindVariable(word: Name) returns (found: bool)
      ensures found <==> IsVariable(word, variables)
    {
      found := false;
      for n := 0 to |variables|
        invariant found <==> IsVariable(word, variables[..n])
      {
        assert variables[..n + 1][..n] == variables[..n];
        if variables[n].name == word { found := true; }
      }
      assert variables[..|variables|] == variables;
    }

    method FindProcedure(word: Name) returns (found: bool)
      ensures found <==> IsProcedure(word, procedures)
    {
      found := false;
      for n := 0 to |procedures|
        invariant found <==> IsProcedure(word, procedures[..n])
      {
        assert procedures[..n + 1][..n] == procedures[..n];
        if procedures[n].name == word { found := true; }
      }
      assert procedures[..|procedures|] == procedures;
    }

    /** A first definition is appended; a second one of the same name is dropped, whatever its scope. */
    method Define(word: Name, formal: bool)
      requires Valid()
      modifies this`variables
      ensures Keeps(Done)
      ensures variables == Defined(old(variables), word, nowProcedure, formal, procedureLevel)
    {
      VariableHasRow(word, variables);
      var found := FindVariable(word);
      if !found {
        variables := variables + [VariableRow(word, nowProcedure, formal, procedureLevel, |variables|)];
      }
    }

    /** A name in neither table is reported; reporting the missing name None is a TypeError. */
    method Use(word: Name) returns (status: Status)
      requires Valid()
      modifies this`reports
      ensures Keeps(status) && Faults(reports) == Faults(old(reports))
      ensures status.Crashed? <==> word.None? && !IsVariable(word, variables) && !IsProcedure(word, procedures)
      ensures word.Some? ==> reports == old(reports) + Complaint(word.value, variables, procedures, line)
    {
      var isVariable := FindVariable(word);
      var isProcedure := FindProcedure(word);
      if !isVariable && !isProcedure {
        if word.None? { return Crashed; }
        ErrPrint(Undefined(word.value, line));
      }
      return Done;
    }

    method TouchProcedures()
      requires Valid()
      modifies this`procedures
      ensures Keeps(Done) && AllTouched(old(procedures), procedures, nowProcedure, line)
    {
      var i := 0;
      while i < |procedures|
        invariant 0 <= i <= |procedures| == |old(procedures)|
        invariant forall k :: 0 <= k < i ==> procedures[k] == Touched(old(procedures[k]), nowProcedure, line)
        invariant forall k :: i <= k < |procedures| ==> procedures[k] == old(procedures[k])
      {
        procedures := procedures[i := Touched(procedures[i], nowProcedure, line)];
        i := i + 1;
      }
      TouchKeepsSpans(old(procedures), procedures, nowProcedure, line);
    }

    /** Whether the next token is a left parenthesis. */
    ghost predicate AtLeft()
      reads this
      requires Valid()
    {
      Rest() != [] && Rest()[0] == LEFT
    }

    /** The tokens before a name that var is to define or to use. */
    ghost predicate Expects(defining: bool, formal: bool)
      reads this
      requires Valid()
    {
      if !defining then OpenHere()
      else if formal then Behind([FUNCTION, IDENTIFIER, LEFT], true)
      else Behind([INTEGER], true)
    }

    /** var, defining a name or using one. */
    method Var(defining: bool, formal: bool) returns (status: Status)
      requires Valid() && Mirrors() && Expects(defining, formal)
      modifies this
      ensures Keeps(status)
      ensures Recognises(status, ParseVariable(old(Rest())))
      ensures status.Done? ==> AllTouched(old(procedures), procedures, nowProcedure, line)
      ensures Clean(status) ==> pos > old(pos)
      ensures Clean(status) && defining ==> reports == old(reports)
      ensures Clean(status) && defining ==>
        variables == Defined(old(variables), Some(tokens[pos - 1].word), nowProcedure, formal, procedureLevel)
      ensures !defining ==> variables == old(variables)
      ensures Clean(status) && !defining ==>
        reports == old(reports) + Complaint(tokens[pos - 1].word, variables, old(procedures), line)
      ensures defining || Faults(reports) > 0 || !AtLeft() ==> Tracks(status)
    {
      hide ReadTo, Ends, Names, NameRole, Complaint, Defined, AllTouched;
      var word := Identifier();
      :- DefineOrUse(word, defining, formal);
      TouchProcedures();
      if Faults(reports) == 0 {
        RoleExpected(old(Passed()), Rest(), defining, formal);
        NamesOneWay(old(ReadTo(tokens, pos)), ReadTo(tokens, pos), NameRole(old(Passed()), Rest()), word.value, line,
                    procedures);
      }
      return Done;
    }

    /** The part of var between the identifier and the lines. */
    method DefineOrUse(word: Name, defining: bool, formal: bool) returns (status: Status)
      requires Valid()
      modifies this`variables, this`reports
      ensures Keeps(status) && Faults(reports) == Faults(old(reports))
      ensures defining ==> status.Done? && reports == old(reports)
      ensures defining ==> variables == Defined(old(variables), word, nowProcedure, formal, procedureLevel)
      ensures !defining ==> variables == old(variables) && (status.Crashed? ==> word.None?)
      ensures !defining && word.Some? ==> reports == old(reports) + Complaint(word.value, variables, procedures, line)
    {
      if defining {
        Define(word, formal);
        status := Done;
      } else {
        status := Use(word);
      }
    }

    /** A use: an undeclared name is reported, and the current procedure's span reaches its line. */
    method UseVar() returns (status: Status)
      requires Valid() && Mirrors() && OpenHere()
      modifies this
      ensures Keeps(status) && Recognises(status, ParseVariable(old(Rest())))
      ensures variables == old(variables)
      ensures status.Done? ==> AllTouched(old(procedures), procedures, nowProcedure, line)
      ensures Clean(status) ==> pos > 0
      ensures Clean(status) ==>
        reports == old(reports) + Complaint(tokens[pos - 1].word, variables, old(procedures), line)
      ensures Faults(reports) > 0 || !AtLeft() ==> Tracks(status)
    {
      status := Var(false, false);
    }

    method DefineVar(formal: bool) returns (status: Status)
      requires Valid() && Mirrors() && Expects(true, formal)
      modifies this
      ensures Keeps(status) && Recognises(status, ParseVariable(old(Rest()))) && Tracks(status)
      ensures Clean(status) ==> pos > 0
      ensures Clean(status) ==>
        variables == Defined(old(variables), Some(tokens[pos - 1].word), nowProcedure, formal, procedureLevel)
    {
      status := Var(true, formal);
    }

    // Expressions

    method MathExpression() returns (status: Status)
      requires Valid() && Mirrors() && OpenHere()
      modifies this
      ensures Keeps(status) && Tracks(status) && Recognises(status, ParseExpr(old(Rest())))
      ensures variables == old(variables)
      decreases Remaining(), 4
    {
      hide Tabled, Mirrors, OpenHere, Behind, ReadTo;
      status := Done;
      :- ReadItem();
      :- MathExpressionA();
    }

    method MathExpressionA() returns (status: Status)
      requires Valid() && Mirrors()
      modifies this
      ensures Keeps(status) && Tracks(status) && Recognises(status, ParseExprA(old(Rest())))
      ensures variables == old(variables)
      decreases Remaining(), 3
    {
      hide Tabled, Mirrors, OpenHere, Behind, ReadTo;
      var code := CurrentCode();
      if code == MINUS {
        Advanced();
        :- ReadItem();
        :- MathExpressionA();
      }
      return Done;
    }

    method ReadItem() returns (status: Status)
      requires Valid() && Mirrors() && OpenHere()
      modifies this
      ensures Keeps(status) && Tracks(status) && Recognises(status, ParseItem(old(Rest())))
      ensures variables == old(variables)
      decreases Remaining(), 3
    {
      hide Tabled, Mirrors, OpenHere, Behind, ReadTo;
      status := Done;
      :- ReadFactor();
      :- ItemA();
    }

    method ItemA() returns (status: Status)
      requires Valid() && Mirrors()
      modifies this
      ensures Keeps(status) && Tracks(status) && Recognises(status, ParseItemA(old(Rest())))
      ensures variables == old(variables)
      decreases Remaining(), 2
    {
      hide Tabled, Mirrors, OpenHere, Behind, ReadTo;
      var code := CurrentCode();
      if code == TIMES {
        Advanced();
        :- ReadFactor();
        :- ItemA();
      }
      return Done;
    }

    /** factor. Looking one token ahead at the end of the input is an IndexError. */
    method ReadFactor() returns (status: Status)
      requires Valid() && Mirrors() && OpenHere()
      modifies this
      ensures Keeps(status) && Tracks(status) && Recognises(status, ParseFactor(old(Rest())))
      ensures variables == old(variables)
      decreases Remaining(), 2
    {
      hide Tabled, Mirrors, OpenHere, Behind, ReadTo;
      var code := CurrentCode();
      if code == CONSTANT {
        UnsignedInteger();
      } else {
        var next := NowMoreOne(1);
        if next.None? { return Crashed; }
        if next.value == LEFT {
          :- FuncCall();
        } else {
          :- UseVar();
        }
      }
      return Done;
    }

    /** The name of a call, which changes no table. */
    method CalledName()
      requires Valid() && Mirrors() && OpenHere() && |Rest()| > 1 && Rest()[1] == LEFT
      modifies this`pos, this`line, this`reports
      ensures Keeps(Done) && Tracks(Done) && Recognises(Done, ParseVariable(old(Rest())))
      ensures Clean(Done) ==> pos > old(pos)
      ensures Behind([FUNCTION, IDENTIFIER], false)
    {
      hide ReadTo, Ends, NameRole;
      var word := Identifier();
      RoleExpected(old(Passed()), Rest(), false, false);
      EndsMore(old(Passed()), IDENTIFIER, FUNCTION, IDENTIFIER, IDENTIFIER);
      EndsMore(old(Passed()), IDENTIFIER, FUNCTION, IDENTIFIER, LEFT);
    }

    method FuncCall() returns (status: Status)
      requires Valid() && Mirrors() && OpenHere() && |Rest()| > 1 && Rest()[1] == LEFT
      modifies this
      ensures Keeps(status) && Tracks(status) && Recognises(status, ParseCall(old(Rest())))
      ensures variables == old(variables)
      decreases Remaining(), 1
    {
      hide Tabled, Mirrors, OpenHere, Behind, ReadTo;
      CalledName();
      var found := Accept(LEFT);
      if found {
        :- MathExpression();
        found := Accept(RIGHT);
      }
      return Done;
    }

    method UnsignedInteger()
      requires Valid() && Mirrors()
      modifies this`pos, this`line, this`reports
      ensures Keeps(Done) && Tracks(Done) && old(Rest()) != []
      ensures Recognises(Done, Expect(old(Rest()), CONSTANT))
    {
      hide Tabled, Mirrors, OpenHere, Behind, ReadTo;
      var found := Accept(CONSTANT);
    }

    method ConditionExpression() returns (status: Status)
      requires Valid() && Mirrors() && OpenHere()
      modifies this
      ensures Keeps(status) && Tracks(status) && Recognises(status, ParseCondition(old(Rest())))
      ensures variables == old(variables)
      decreases Remaining(), 5
    {
      hide Tabled, Mirrors, OpenHere, Behind, ReadTo;
      status := Done;
      :- MathExpression();
      RelationOperator();
      :- MathExpression();
    }

    method RelationOperator()
      requires Valid() && Mirrors()
      modifies this`pos, this`line, this`reports
      ensures Keeps(Done) && Tracks(Done) && OpenHere() && old(Rest()) != []
      ensures Recognises(Done, if IsRelation(old(Rest())[0]) then Some(old(Rest())[1..]) else None)
    {
      hide Tabled, Mirrors, OpenHere, Behind, ReadTo;
      var code := CurrentCode();
      if code in {15, 14, 17, 16, 12, 13} {
        Advanced();
      } else {
        ErrPrint(Syntax(line));
      }
    }

    // Statements

    method AssignStatement() returns (status: Status)
      requires Valid() && Mirrors() && OpenHere()
      modifies this
      ensures Keeps(status) && Tracks(status)
      ensures variables == old(variables)
      ensures Recognises(status, ParseAssignment(old(Rest())))
    {
      hide Tabled, Mirrors, OpenHere, Behind, ReadTo;
      status := Done;
      :- UseVar();
      var found := Accept(ASSIGN);
      if found {
        :- MathExpression();
      }
    }

    method ReadStatement() returns (status: Status)
      requires Valid() && Mirrors()
      modifies this
      ensures Keeps(status) && Tracks(status)
      ensures variables == old(variables)
      ensures Recognises(status, ParseRead(old(Rest()), READ))
    {
      hide Tabled, Mirrors, OpenHere, Behind, ReadTo;
      var found := Accept(READ);
      if !found { return Done; }
      status := Bracketed();
    }

    /** The part read and write statements share: a used name in parentheses. */
    method Bracketed() returns (status: Status)
      requires Valid() && Mirrors() && Behind([FUNCTION, IDENTIFIER], false)
      modifies this
      ensures Keeps(status) && Tracks(status)
      ensures variables == old(variables)
      ensures Recognises(status, ParseBracketed(old(Rest())))
    {
      hide Tabled, Mirrors, OpenHere, Behind, ReadTo;
      var found := Accept(LEFT);
      if !found { return Done; }
      :- UseVar();
      found := Accept(RIGHT);
      return Done;
    }

    /** write_statement consumes its own semicolon. Without one the source calls a string, which is a
        TypeError. */
    method WriteStatement() returns (status: Status)
      requires Valid() && Mirrors()
      modifies this
      ensures Keeps(status) && Tracks(status)
      ensures variables == old(variables)
      ensures Recognises(status, ParseWrite(old(Rest())))
      ensures ParseRead(old(Rest()), WRITE).Some? ==> (status.Crashed? <==> ParseWrite(old(Rest())).None?)
    {
      hide Tabled, Mirrors, OpenHere, Behind, ReadTo;
      var found := Accept(WRITE);
      if !found { return Done; }
      status := WriteTail();
    }

    /** The rest of write_statement, from the left parenthesis on. */
    method WriteTail() returns (status: Status)
      requires Valid() && Mirrors() && Behind([FUNCTION, IDENTIFIER], false)
      modifies this
      ensures Keeps(status) && Tracks(status)
      ensures variables == old(variables)
      ensures Recognises(status, Then(ParseBracketed(old(Rest())), SEMICOLON))
      ensures ParseBracketed(old(Rest())).Some? ==>
        (status.Crashed? <==> Then(ParseBracketed(old(Rest())), SEMICOLON).None?)
    {
      hide Tabled, Mirrors, OpenHere, Behind, ReadTo;
      var found := Accept(LEFT);
      if !found { return Done; }
      :- UseVar();
      found := Accept(RIGHT);
      if !found { return Done; }
      status := OwnSemicolon();
    }

    method OwnSemicolon() returns (status: Status)
      requires Valid() && Mirrors()
      modifies this`pos, this`line
      ensures Keeps(status) && Tracks(status) && reports == old(reports)
      ensures Recognises(status, Expect(old(Rest()), SEMICOLON)) && (status.Done? <==> Clean(status))
    {
      hide Tabled, Mirrors, OpenHere, Behind, ReadTo;
      var code := CurrentCode();
      if code != SEMICOLON { return Crashed; }
      Advanced();
      return Done;
    }

    method ExecStatement() returns (status: Status)
      requires Valid() && Mirrors() && OpenHere()
      modifies this
      ensures Keeps(status) && Tracks(status) && Recognises(status, ParseStatement(old(Rest())))
      ensures variables == old(variables)
      decreases Remaining(), 2
    {
      hide Tabled, Mirrors, OpenHere, Behind, ReadTo;
      var state := CurrentCode();
      if state == READ {
        :- ReadStatement();
      } else if state == WRITE {
        :- WriteStatement();
      } else if state == IF {
        :- ConditionStatement();
      } else if state == IDENTIFIER {
        :- AssignStatement();
      } else {
        ErrPrint(Syntax(line));
      }
      return Done;
    }

    method ConditionStatement() returns (status: Status)
      requires Valid() && Mirrors()
      modifies this
      ensures Keeps(status) && Tracks(status) && Recognises(status, ParseIf(old(Rest())))
      ensures variables == old(variables)
      decreases Remaining(), 1
    {
      hide Tabled, Mirrors, OpenHere, Behind, ReadTo;
      var found := Accept(IF);
      if !found { return Done; }
      :- ConditionExpression();
      :- Branches();
      return Done;
    }

    /** The rest of condition_statement, from `then` on. */
    method Branches() returns (status: Status)
      requires Valid() && Mirrors()
      modifies this
      ensures Keeps(status) && Tracks(status) && Recognises(status, ParseBranches(old(Rest())))
      ensures variables == old(variables)
      decreases Remaining(), 1
    {
      hide Tabled, Mirrors, OpenHere, Behind, ReadTo;
      var found := Accept(THEN);
      if !found { return Done; }
      :- ExecStatement();
      found := Accept(ELSE);
      if !found { return Done; }
      :- ExecStatement();
      return Done;
    }

    method ExecStatementTable() returns (status: Status)
      requires Valid() && Mirrors() && OpenHere()
      modifies this
      ensures Keeps(status) && Tracks(status) && Recognises(status, ParseStatements(old(Rest())))
      ensures variables == old(variables)
      decreases Remaining(), 4
    {
      hide Tabled, Mirrors, OpenHere, Behind, ReadTo;
      status := Done;
      :- ExecStatement();
      :- ExecStatementTableA();
    }

    method ExecStatementTableA() returns (status: Status)
      requires Valid() && Mirrors()
      modifies this
      ensures Keeps(status) && Tracks(status) && Recognises(status, ParseStatementsA(old(Rest())))
      ensures variables == old(variables)
      decreases Remaining(), 3
    {
      hide Tabled, Mirrors, OpenHere, Behind, ReadTo;
      var code := CurrentCode();
      if code == SEMICOLON {
        var next := Following();
        if StartsStatement(next) {
          Advanced();
          :- ExecStatement();
          :- ExecStatementTableA();
        }
      }
      return Done;
    }

    // Declarations

    method DeclareStatementTable() returns (status: Status)
      requires Valid() && Mirrors()
      modifies this
      ensures Keeps(status) && Tracks(status) && Recognises(status, ParseDeclarations(old(Rest())))
      decreases Remaining(), 4
    {
      hide Tabled, Mirrors, OpenHere, Behind, ReadTo;
      status := Done;
      :- DeclareStatement();
      :- DeclareStatementTableA();
    }

    method DeclareStatementTableA() returns (status: Status)
      requires Valid() && Mirrors()
      modifies this
      ensures Keeps(status) && Tracks(status) && Recognises(status, ParseDeclarationsA(old(Rest())))
      decreases Remaining(), 3
    {
      hide Tabled, Mirrors, OpenHere, Behind, ReadTo;
      var code := CurrentCode();
      if code == SEMICOLON {
        var next := Following();
        if next == INTEGER {
          Advanced();
          :- DeclareStatement();
          :- DeclareStatementTableA();
        }
      }
      return Done;
    }

    method DeclareStatement() returns (status: Status)
      requires Valid() && Mirrors()
      modifies this
      ensures Keeps(status) && Tracks(status) && Recognises(status, ParseDeclaration(old(Rest())))
      decreases Remaining(), 2
    {
      hide Tabled, Mirrors, OpenHere, Behind, ReadTo;
      var code := CurrentCode();
      if code == INTEGER {
        var next := Following();
        if next == FUNCTION {
          :- FuncDeclare();
        } else {
          :- VarDeclare();
        }
      } else {
        ErrPrint(Syntax(line));
      }
      return Done;
    }

    method VarDeclare() returns (status: Status)
      requires Valid() && Mirrors()
      modifies this
      ensures Keeps(status) && Tracks(status) && Recognises(status, ParseVarDeclaration(old(Rest())))
      ensures Clean(status) ==> pos > 0
      ensures Clean(status) ==>
        variables == Defined(old(variables), Some(tokens[pos - 1].word), nowProcedure, false, procedureLevel)
    {
      hide Tabled, Mirrors, OpenHere, Behind, ReadTo;
      var found := Accept(INTEGER);
      if !found { return Done; }
      assert variables == old(variables);
      status := DefineVar(false);
    }

    /** In the heading of a function declaration the level is that of the function to come. */
    ghost predicate Deeper()
      reads this
      requires Valid()
    {
      Faults(reports) == 0 ==> Scope() != [] && procedureLevel == |Scope()|
    }

    /** func_declare: the enclosing procedure and its level are back afterwards, on every path that
        comes back at all. */
    method FuncDeclare() returns (status: Status)
      requires Valid() && Mirrors()
      modifies this
      ensures Keeps(status) && Tracks(status) && Recognises(status, ParseFunction(old(Rest())))
      decreases Remaining(), 1
    {
      hide ReadTo, OpenHere, Behind;
      procedureLevel := procedureLevel + 1;
      var lastProcedure := nowProcedure;
      var found := Accept(INTEGER);
      if found {
        :- FuncHeading();
      }
      nowProcedure := lastProcedure;
      procedureLevel := procedureLevel - 1;
      return Done;
    }

    /** Coming back from a function leaves the tables mirrored and the scopes as they were. */
    twostate predicate Returns(status: Status)
      requires old(Valid()) && Valid()
      reads this
    {
      status.Done? ==> Tabled() && (Faults(reports) == 0 ==> Scope() == old(Scope()))
    }

    /** The end of a block closes the innermost scope. */
    twostate predicate Closes(status: Status)
      requires old(Valid()) && Valid()
      reads this
    {
      status.Done? ==>
        && Tabled()
        && (Faults(reports) == 0 ==> old(Scope()) != [] && Scope() == old(Scope())[..|old(Scope())| - 1])
    }

    /** The part of func_declare after `integer`; it leaves the declared procedure current. */
    method FuncHeading() returns (status: Status)
      requires Valid() && Tabled() && Deeper()
      modifies this
      ensures Valid() && old(pos) <= pos && old(variables) <= variables && Keep(old(procedures), procedures)
      ensures Returns(status)
      ensures Clean(status) ==> IsProcedure(nowProcedure, procedures)
      ensures Faults(old(reports)) <= Faults(reports)
      ensures status.Done? ==> procedureLevel == old(procedureLevel)
      ensures Recognises(status, ParseTail(old(Rest())))
      decreases Remaining(), 1
    {
      hide ReadTo, OpenHere, Behind;
      var found := Accept(FUNCTION);
      if !found { return Done; }
      NewFunction();
      ghost var table := procedures;
      status := FuncParameter();
      if Clean(status) { ProcedureStays(nowProcedure, table, procedures); }
    }

    /** The name of a new function. */
    method FunctionName() returns (word: Name)
      requires Valid() && Behind([FUNCTION], true)
      modifies this`pos, this`line, this`reports
      ensures Keeps(Done) && Recognises(Done, ParseVariable(old(Rest())))
      ensures word.Some? ==> pos > old(pos) && word.value == tokens[pos - 1].word && reports == old(reports)
      ensures word.Some? <==> Clean(Done)
      ensures Behind([FUNCTION, IDENTIFIER], true)
      ensures Faults(reports) == 0 ==> word.Some? && Scoped(old(ReadTo(tokens, pos)), ReadTo(tokens, pos), word.value)
    {
      hide ReadTo, Ends, NameRole, Names;
      word := Identifier();
      RoleOfFunction(old(Passed()), Rest());
      if word.Some? {
        NewScope(old(ReadTo(tokens, pos)), ReadTo(tokens, pos), NameRole(old(Passed()), Rest()), word.value, line);
      }
      EndsMore(old(Passed()), IDENTIFIER, FUNCTION, IDENTIFIER, IDENTIFIER);
    }

    /** The new function gets its row and becomes the current procedure. */
    method NewFunction()
      requires Valid() && Tabled() && Deeper() && Behind([FUNCTION], true)
      modifies this
      ensures Valid() && old(pos) <= pos && variables == old(variables) && Keep(old(procedures), procedures)
      ensures Faults(old(reports)) <= Faults(reports) && procedureLevel == old(procedureLevel)
      ensures Recognises(Done, ParseVariable(old(Rest())))
      ensures IsProcedure(nowProcedure, procedures)
      ensures Clean(Done) ==> pos > old(pos) && nowProcedure == Some(tokens[pos - 1].word)
      ensures Mirrors() && Behind([FUNCTION, IDENTIFIER], true)
      ensures Faults(reports) == 0 ==> old(Scope()) != [] && Scope()[..|Scope()| - 1] == old(Scope())
    {
      hide ReadTo, Ends;
      nowProcedure := FunctionName();
      DefineProcedure();
    }

    /** The rest of func_declare, from the left parenthesis on. */
    method FuncParameter() returns (status: Status)
      requires Valid() && Mirrors() && Behind([FUNCTION, IDENTIFIER], true)
      modifies this
      ensures Keeps(status) && Closes(status) && Recognises(status, ParseParameter(old(Rest())))
      decreases Remaining(), 0
    {
      hide Tabled, Mirrors, OpenHere, Behind, ReadTo;
      var found := Accept(LEFT);
      if !found { return Done; }
      :- Parameter();
      :- FuncBody();
      return Done;
    }

    /** What follows the parameter. */
    method FuncBody() returns (status: Status)
      requires Valid() && Mirrors()
      modifies this
      ensures Keeps(status) && Closes(status) && Recognises(status, ParseBody(old(Rest())))
      decreases Remaining(), 6
    {
      hide Tabled, Mirrors, OpenHere, Behind, ReadTo;
      var found := Accept(RIGHT);
      if !found { return Done; }
      found := Accept(SEMICOLON);
      if !found { return Done; }
      :- Block();
      return Done;
    }

    /** parameter: the name gets a row as a parameter of the current procedure at the current level. */
    method Parameter() returns (status: Status)
      requires Valid() && Mirrors() && Behind([FUNCTION, IDENTIFIER, LEFT], true)
      modifies this
      ensures Keeps(status) && Recognises(status, ParseVariable(old(Rest()))) && Tracks(status)
      ensures Clean(status) ==> pos > 0
      ensures Clean(status) ==>
        variables == Defined(old(variables), Some(tokens[pos - 1].word), nowProcedure, true, procedureLevel)
    {
      status := DefineVar(true);
    }

    method DefineProcedure()
      requires Valid()
      modifies this`procedures
      ensures Keeps(Done)
      ensures IsProcedure(nowProcedure, procedures)
      ensures procedures == if IsProcedure(nowProcedure, old(procedures)) then old(procedures)
        else old(procedures) + [ProcedureRow(nowProcedure, procedureLevel, -1, -1)]
    {
      ProcedureHasRow(nowProcedure, procedures);
      var found := FindProcedure(nowProcedure);
      if !found {
        procedures := procedures + [ProcedureRow(nowProcedure, procedureLevel, -1, -1)];
      }
    }

    lemma MirrorsTables()
      requires Valid() && Mirrors()
      ensures Tabled() && (Faults(reports) == 0 ==> Scope() != [])
    {
    }

    /** branch_procedure and func_body, which differ in their messages only. */
    method Block() returns (status: Status)
      requires Valid() && Mirrors()
      modifies this
      ensures Keeps(status) && Closes(status) && Recognises(status, ParseBlock(old(Rest())))
      decreases Remaining(), 5
    {
      hide Tabled, Mirrors, OpenHere, Behind, ReadTo;
      var found := Accept(BEGIN);
      if !found { return Done; }
      :- DeclareStatementTable();
      :- BlockTail();
      return Done;
    }

    /** The rest of a block, from the semicolon behind the declarations on. */
    method BlockTail() returns (status: Status)
      requires Valid() && Mirrors()
      modifies this
      ensures Keeps(status) && Closes(status) && Recognises(status, ParseBlockTail(old(Rest())))
    {
      hide Tabled, Mirrors, OpenHere, Behind, ReadTo;
      var found := Accept(SEMICOLON);
      if !found { return Done; }
      :- ExecStatementTable();
      MirrorsTables();
      found := Accept(END);
      return Done;
    }
  }

  /** main_procedure on any token list: it ends, before the end-of-input token, with sound tables; without a syntax
      error they are those of the tokens passed. */
  method MainProcedure(tokens: seq<Token>) returns (parser: Parser, status: Status, ghost tree: Block)
    requires Terminated(tokens)
    ensures fresh(parser) && parser.Valid() && parser.tokens == tokens
    ensures status.Done? ==> parser.nowProcedure == Some("main") && parser.procedureLevel == 0
    ensures status.Done? && Faults(parser.reports) == 0 <==> BeginsWithBlock(CodesFrom(tokens, 0))
    ensures status.Done? && Faults(parser.reports) == 0 ==> CodesFrom(tokens, 0) == BlockCodes(tree) + parser.Rest()
    ensures status.Done? && Faults(parser.reports) == 0 ==>
      && parser.reports == Undeclared(tokens, parser.pos)
      && parser.variables == VariableRows(tokens, parser.pos)
      && parser.procedures == FunctionRows(tokens, parser.pos)
  {
    parser := new Parser(tokens);
    status := parser.Block();
    BlockIsExact(CodesFrom(tokens, 0));
    tree := Block(OneDeclaration(Name), OneStatement(Read));
    if status.Done? && Faults(parser.reports) == 0 {
      tree := BlockIsSound(CodesFrom(tokens, 0));
    }
  }
}
