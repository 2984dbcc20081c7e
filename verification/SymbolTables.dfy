/** The token list and the symbol tables of Compiler/lab-py/lab_parser.py. */
module SymbolTables {
  import opened Wrappers
  import opened ExpressionGrammar

  datatype Token = Token(word: string, code: nat)

  /** A name is None where `identifier` failed and the source goes on with that None. */
  type Name = Option<string>

  datatype VariableRow = VariableRow(name: Name, procedure: Name, formal: bool, level: nat, position: nat)

  /** The lines a procedure spans, -1 while unknown. */
  datatype ProcedureRow = ProcedureRow(name: Name, level: nat, begin: int, end: int)

  datatype Report = Syntax(line: nat) | Undefined(word: string, line: nat)

  // Token lists

  /** The codes from index k on, end-of-line tokens erased. */
  function CodesFrom(tokens: seq<Token>, k: nat): seq<nat>
    requires k <= |tokens|
    decreases |tokens| - k
  {
    if k == |tokens| then []
    else if tokens[k].code == EOLN then CodesFrom(tokens, k + 1)
    else [tokens[k].code] + CodesFrom(tokens, k + 1)
  }

  /** The number of end-of-line tokens before index k. */
  function Lines(tokens: seq<Token>, k: nat): nat
    requires k <= |tokens|
  {
    if k == 0 then 0 else Lines(tokens, k - 1) + if tokens[k - 1].code == EOLN then 1 else 0
  }

  predicate Terminated(tokens: seq<Token>) {
    tokens != [] && tokens[|tokens| - 1].code == EOF
  }

  predicate NotPastEof(tokens: seq<Token>, pos: nat) {
    pos < |tokens| && forall k :: 0 <= k < pos ==> tokens[k].code != EOF
  }

  lemma {:induction false} LastIsKept(tokens: seq<Token>, k: nat)
    requires Terminated(tokens) && k < |tokens|
    ensures CodesFrom(tokens, k) != []
    decreases |tokens| - k
  {
    if tokens[k].code == EOLN { LastIsKept(tokens, k + 1); }
  }

  // Symbol tables

  ghost predicate GoodVariables(table: seq<VariableRow>) {
    && (forall i :: 0 <= i < |table| ==> table[i].position == i)
    && (forall i, j :: 0 <= i < j < |table| ==> table[i].name != table[j].name)
  }

  predicate GoodSpan(row: ProcedureRow, line: nat) {
    row.begin == row.end == -1 || 1 <= row.begin < row.end <= line + 1
  }

  ghost predicate GoodProcedures(table: seq<ProcedureRow>, line: nat) {
    && (forall i :: 0 <= i < |table| ==> GoodSpan(table[i], line))
    && (forall i, j :: 0 <= i < j < |table| ==> table[i].name != table[j].name)
  }

  predicate IsVariable(name: Name, table: seq<VariableRow>) {
    table != [] && (table[|table| - 1].name == name || IsVariable(name, table[..|table| - 1]))
  }

  predicate IsProcedure(name: Name, table: seq<ProcedureRow>) {
    table != [] && (table[|table| - 1].name == name || IsProcedure(name, table[..|table| - 1]))
  }

  lemma {:induction false} VariableHasRow(name: Name, table: seq<VariableRow>)
    ensures IsVariable(name, table) <==> exists i :: 0 <= i < |table| && table[i].name == name
  {
    if table != [] { VariableHasRow(name, table[..|table| - 1]); }
  }

  lemma {:induction false} ProcedureHasRow(name: Name, table: seq<ProcedureRow>)
    ensures IsProcedure(name, table) <==> exists i :: 0 <= i < |table| && table[i].name == name
  {
    if table != [] { ProcedureHasRow(name, table[..|table| - 1]); }
  }

  lemma ProcedureStays(name: Name, before: seq<ProcedureRow>, after: seq<ProcedureRow>)
    requires IsProcedure(name, before) && Keep(before, after)
    ensures IsProcedure(name, after)
  {
    ProcedureHasRow(name, before);
    ProcedureHasRow(name, after);
    var i :| 0 <= i < |before| && before[i].name == name;
    assert after[i].name == name;
  }

  /** Rows are never dropped, and keep their names and levels. */
  predicate Keep(before: seq<ProcedureRow>, after: seq<ProcedureRow>) {
    && |before| <= |after|
    && forall i :: 0 <= i < |before| ==> after[i].name == before[i].name && after[i].level == before[i].level
  }

  /** The variable table once a name is defined in a procedure: a known name changes nothing. */
  function Defined(table: seq<VariableRow>, name: Name, procedure: Name, formal: bool, level: nat): seq<VariableRow> {
    if IsVariable(name, table) then table
    else table + [VariableRow(name, procedure, formal, level, |table|)]
  }

  /** What is reported when a name is used. */
  function Complaint(word: string, variables: seq<VariableRow>, procedures: seq<ProcedureRow>, line: nat): seq<Report> {
    if IsVariable(Some(word), variables) || IsProcedure(Some(word), procedures) then [] else [Undefined(word, line)]
  }

  /** Stretching the current procedure's span to a line. */
  function Touched(row: ProcedureRow, name: Name, line: nat): ProcedureRow {
    if row.name != name then row
    else
      var begun := if row.begin == -1 then row.(begin := line) else row;
      if begun.end < line then begun.(end := line + 1) else begun
  }

  ghost predicate AllTouched(before: seq<ProcedureRow>, after: seq<ProcedureRow>, name: Name, line: nat) {
    |after| == |before| && forall i :: 0 <= i < |before| ==> after[i] == Touched(before[i], name, line)
  }

  lemma TouchKeepsSpans(before: seq<ProcedureRow>, after: seq<ProcedureRow>, name: Name, line: nat)
    requires line > 0 && GoodProcedures(before, line) && AllTouched(before, after, name, line)
    ensures GoodProcedures(after, line)
  {
    forall i | 0 <= i < |before|
      ensures GoodSpan(after[i], line) && after[i].name == before[i].name
    {
    }
  }

  /** The syntax errors among the reports. */
  function Faults(reports: seq<Report>): nat {
    if reports == [] then 0
    else Faults(reports[..|reports| - 1]) + if reports[|reports| - 1].Syntax? then 1 else 0
  }
}
