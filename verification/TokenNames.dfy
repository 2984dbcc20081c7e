/** What the names of a token list mean, read off the list alone: which identifiers declare, call or use, which uses
    are undeclared, and which rows the symbol tables must hold. */
module TokenNames {
  import opened Wrappers
  import opened ExpressionGrammar
  import opened SymbolTables

  // Roles

  /** The codes before index k, end-of-line tokens erased. */
  function Before(tokens: seq<Token>, k: nat): seq<nat>
    requires k <= |tokens|
  {
    if k == 0 then []
    else Before(tokens, k - 1) + if tokens[k - 1].code == EOLN then [] else [tokens[k - 1].code]
  }

  predicate Ends(codes: seq<nat>, tail: seq<nat>) {
    |tail| <= |codes| && codes[|codes| - |tail|..] == tail
  }

  datatype Role = NoName | DeclaresVariable | DeclaresFormal | NamesFunction | Calls | Uses {
    predicate Declares() { DeclaresVariable? || DeclaresFormal? }
    predicate Touches() { Declares() || Uses? }
  }

  /** An identifier behind `integer` declares a variable, one behind `function` names a function, one behind the
      parenthesis of a function's name is its parameter; any other is a call in front of a parenthesis, and else
      a use. */
  function NameRole(before: seq<nat>, after: seq<nat>): Role {
    if Ends(before, [INTEGER]) then DeclaresVariable
    else if Ends(before, [FUNCTION]) then NamesFunction
    else if Ends(before, [FUNCTION, IDENTIFIER, LEFT]) then DeclaresFormal
    else if after != [] && after[0] == LEFT then Calls
    else Uses
  }

  function RoleAt(tokens: seq<Token>, k: nat): Role
    requires k < |tokens|
  {
    if tokens[k].code != IDENTIFIER then NoName else NameRole(Before(tokens, k), CodesFrom(tokens, k + 1))
  }

  /** The names of the functions around index k, innermost last: a function's name opens its scope and the `end` of
      its body closes it. */
  function Scopes(tokens: seq<Token>, k: nat): seq<string>
    requires k <= |tokens|
  {
    if k == 0 then ["main"]
    else
      var scopes := Scopes(tokens, k - 1);
      if RoleAt(tokens, k - 1).NamesFunction? then scopes + [tokens[k - 1].word]
      else if tokens[k - 1].code == END && scopes != [] then scopes[..|scopes| - 1]
      else scopes
  }

  function Top(scopes: seq<string>): Name {
    if scopes == [] then None else Some(scopes[|scopes| - 1])
  }

  function Depth(scopes: seq<string>): nat {
    if scopes == [] then 0 else |scopes| - 1
  }

  function LineOf(tokens: seq<Token>, k: nat): nat
    requires k <= |tokens|
  {
    1 + Lines(tokens, k)
  }

  // Declarations and uses

  ghost predicate VariableBefore(tokens: seq<Token>, k: nat, word: string)
    requires k <= |tokens|
  {
    exists j :: 0 <= j < k && RoleAt(tokens, j).Declares() && tokens[j].word == word
  }

  ghost predicate FunctionBefore(tokens: seq<Token>, k: nat, word: string)
    requires k <= |tokens|
  {
    exists j :: 0 <= j < k && RoleAt(tokens, j).NamesFunction? && tokens[j].word == word
  }

  /** A use of a name that no earlier variable, parameter or function has. */
  ghost predicate UsesUndeclared(tokens: seq<Token>, k: nat)
    requires k < |tokens|
  {
    && RoleAt(tokens, k).Uses?
    && !VariableBefore(tokens, k, tokens[k].word) && !FunctionBefore(tokens, k, tokens[k].word)
  }

  /** The uses of undeclared names before index k, in order, each with its line. */
  ghost function Undeclared(tokens: seq<Token>, k: nat): seq<Report>
    requires k <= |tokens|
  {
    if k == 0 then []
    else
      Undeclared(tokens, k - 1) +
        if UsesUndeclared(tokens, k - 1) then [Undefined(tokens[k - 1].word, LineOf(tokens, k - 1))] else []
  }

  /** The first variable or parameter of its name. */
  ghost predicate FirstVariable(tokens: seq<Token>, k: nat)
    requires k < |tokens|
  {
    RoleAt(tokens, k).Declares() && !VariableBefore(tokens, k, tokens[k].word)
  }

  /** One row for each name declared before index k, of its first declaration: the function around it, whether it is
      a parameter, and how deep it lies. */
  ghost function VariableRows(tokens: seq<Token>, k: nat): seq<VariableRow>
    requires k <= |tokens|
  {
    if k == 0 then []
    else
      var rows, scopes := VariableRows(tokens, k - 1), Scopes(tokens, k - 1);
      rows +
        if FirstVariable(tokens, k - 1) then
          [VariableRow(Some(tokens[k - 1].word), Top(scopes), RoleAt(tokens, k - 1).DeclaresFormal?, Depth(scopes),
                       |rows|)]
        else []
  }

  // Functions and their lines

  ghost predicate FirstFunction(tokens: seq<Token>, k: nat)
    requires k < |tokens|
  {
    RoleAt(tokens, k).NamesFunction? && !FunctionBefore(tokens, k, tokens[k].word)
  }

  /** The lines of the names declared or used between j and k in a function of the name at j. */
  function TouchLines(tokens: seq<Token>, j: nat, k: nat): seq<nat>
    requires j < |tokens| && k <= |tokens|
  {
    if k <= j + 1 then []
    else
      TouchLines(tokens, j, k - 1) +
        if RoleAt(tokens, k - 1).Touches() && Top(Scopes(tokens, k - 1)) == Some(tokens[j].word)
        then [LineOf(tokens, k - 1)] else []
  }

  /** How many consecutive lines the list ends with. */
  function Streak(lines: seq<nat>): nat {
    if |lines| <= 1 then |lines|
    else
      var last, before := lines[|lines| - 1], lines[|lines| - 2];
      if last == before then Streak(lines[..|lines| - 1])
      else if last == before + 1 then Streak(lines[..|lines| - 1]) + 1
      else 1
  }

  function SpanBegin(lines: seq<nat>): int {
    if lines == [] then -1 else lines[0]
  }

  /** The last line, or one beyond it: the source stretches a span past its end by the new line and one more, so every
      other line of a run of consecutive ones is already inside. */
  function SpanEnd(lines: seq<nat>): int {
    if lines == [] then -1 else lines[|lines| - 1] + Streak(lines) % 2
  }

  function RowOf(tokens: seq<Token>, j: nat, k: nat): ProcedureRow
    requires j < |tokens| && k <= |tokens|
  {
    var lines := TouchLines(tokens, j, k);
    ProcedureRow(Some(tokens[j].word), |Scopes(tokens, j)|, SpanBegin(lines), SpanEnd(lines))
  }

  /** One row for each function named before index j, of its first declaration, with the lines seen before k. */
  ghost function RowsUpTo(tokens: seq<Token>, j: nat, k: nat): seq<ProcedureRow>
    requires j <= |tokens| && k <= |tokens|
  {
    if j == 0 then []
    else RowsUpTo(tokens, j - 1, k) + if FirstFunction(tokens, j - 1) then [RowOf(tokens, j - 1, k)] else []
  }

  /** One row for each function named before index k. */
  ghost function FunctionRows(tokens: seq<Token>, k: nat): seq<ProcedureRow>
    requires k <= |tokens|
  {
    RowsUpTo(tokens, k, k)
  }

  // The tables of the source follow

  lemma OneMoreVariable(rows: seq<VariableRow>, row: VariableRow, name: Name)
    ensures IsVariable(name, rows + [row]) <==> row.name == name || IsVariable(name, rows)
  {
    assert (rows + [row])[..|rows|] == rows;
  }

  lemma OneMoreProcedure(rows: seq<ProcedureRow>, row: ProcedureRow, name: Name)
    ensures IsProcedure(name, rows + [row]) <==> row.name == name || IsProcedure(name, rows)
  {
    assert (rows + [row])[..|rows|] == rows;
  }

  lemma VariableBeforeNext(tokens: seq<Token>, k: nat, word: string)
    requires k < |tokens|
    ensures VariableBefore(tokens, k + 1, word) <==>
      VariableBefore(tokens, k, word) || (RoleAt(tokens, k).Declares() && tokens[k].word == word)
  {
  }

  lemma FunctionBeforeNext(tokens: seq<Token>, k: nat, word: string)
    requires k < |tokens|
    ensures FunctionBefore(tokens, k + 1, word) <==>
      FunctionBefore(tokens, k, word) || (RoleAt(tokens, k).NamesFunction? && tokens[k].word == word)
  {
  }

  lemma OneMoreDeclared(tokens: seq<Token>, k: nat, word: string)
    requires k < |tokens|
    ensures IsVariable(Some(word), VariableRows(tokens, k + 1)) <==>
      (FirstVariable(tokens, k) && tokens[k].word == word) || IsVariable(Some(word), VariableRows(tokens, k))
  {
    hide FirstVariable, Scopes, RoleAt;
    var rows := VariableRows(tokens, k);
    assert rows + [] == rows;
    if FirstVariable(tokens, k) {
      var row := VariableRows(tokens, k + 1)[|rows|];
      assert VariableRows(tokens, k + 1) == rows + [row];
      OneMoreVariable(rows, row, Some(word));
    }
  }

  /** The variable table has a row of a name exactly when an earlier identifier declares it. */
  lemma {:induction false} VariableHasRowAt(tokens: seq<Token>, k: nat, word: string)
    requires k <= |tokens|
    ensures IsVariable(Some(word), VariableRows(tokens, k)) <==> VariableBefore(tokens, k, word)
  {
    hide VariableBefore, Scopes, RoleAt;
    if k == 0 {
      NoneBefore(tokens, word);
    } else {
      VariableHasRowAt(tokens, k - 1, word);
      VariableBeforeNext(tokens, k - 1, word);
      OneMoreDeclared(tokens, k - 1, word);
      hide IsVariable, VariableRows;
    }
  }

  lemma NoneBefore(tokens: seq<Token>, word: string)
    ensures !VariableBefore(tokens, 0, word) && !FunctionBefore(tokens, 0, word)
  {
  }

  lemma OneMoreNamed(tokens: seq<Token>, j: nat, k: nat, word: string)
    requires j < |tokens| && k <= |tokens|
    ensures IsProcedure(Some(word), RowsUpTo(tokens, j + 1, k)) <==>
      (FirstFunction(tokens, j) && tokens[j].word == word) || IsProcedure(Some(word), RowsUpTo(tokens, j, k))
  {
    hide FirstFunction, TouchLines;
    var rows := RowsUpTo(tokens, j, k);
    assert rows + [] == rows;
    OneMoreProcedure(rows, RowOf(tokens, j, k), Some(word));
  }

  lemma {:induction false} FunctionHasRowAt(tokens: seq<Token>, j: nat, k: nat, word: string)
    requires j <= |tokens| && k <= |tokens|
    ensures IsProcedure(Some(word), RowsUpTo(tokens, j, k)) <==> FunctionBefore(tokens, j, word)
  {
    hide FunctionBefore, Scopes, RoleAt;
    if j == 0 {
      NoneBefore(tokens, word);
    } else {
      FunctionHasRowAt(tokens, j - 1, k, word);
      FunctionBeforeNext(tokens, j - 1, word);
      OneMoreNamed(tokens, j - 1, k, word);
      hide IsProcedure, RowsUpTo;
    }
  }

  lemma {:induction false} TouchedBefore(tokens: seq<Token>, j: nat, k: nat)
    requires j < |tokens| && k <= |tokens|
    ensures var lines := TouchLines(tokens, j, k);
      lines != [] ==> 1 <= lines[0] <= lines[|lines| - 1] <= LineOf(tokens, k)
    decreases k
  {
    hide RoleAt, Scopes, LineOf;
    if k > j + 1 {
      TouchedBefore(tokens, j, k - 1);
      LinesGrow(tokens, k - 1);
    }
  }

  lemma LinesGrow(tokens: seq<Token>, k: nat)
    requires k < |tokens|
    ensures 1 <= LineOf(tokens, k) <= LineOf(tokens, k + 1)
  {
  }

  lemma StreakMore(lines: seq<nat>, line: nat)
    requires lines != [] && lines[|lines| - 1] <= line
    ensures var last := lines[|lines| - 1];
      Streak(lines + [line]) ==
        if line == last then Streak(lines) else if line == last + 1 then Streak(lines) + 1 else 1
  {
    assert (lines + [line])[..|lines|] == lines;
  }

  /** One more line stretches the span exactly as the source does. */
  lemma SpanMore(lines: seq<nat>, line: nat)
    requires line > 0 && (lines != [] ==> 1 <= lines[0] <= lines[|lines| - 1] <= line)
    ensures SpanBegin(lines + [line]) == if SpanBegin(lines) == -1 then line else SpanBegin(lines)
    ensures SpanEnd(lines + [line]) == if SpanEnd(lines) < line then line + 1 else SpanEnd(lines)
  {
    if lines != [] {
      StreakMore(lines, line);
    }
  }

  lemma TouchLinesMore(tokens: seq<Token>, j: nat, k: nat)
    requires j < k < |tokens|
    ensures TouchLines(tokens, j, k + 1) == TouchLines(tokens, j, k) +
      if RoleAt(tokens, k).Touches() && Top(Scopes(tokens, k)) == Some(tokens[j].word) then [LineOf(tokens, k)] else []
  {
  }

  lemma RowOfTouched(tokens: seq<Token>, j: nat, k: nat)
    requires j < k < |tokens|
    ensures RowOf(tokens, j, k + 1) ==
      if RoleAt(tokens, k).Touches() then Touched(RowOf(tokens, j, k), Top(Scopes(tokens, k)), LineOf(tokens, k))
      else RowOf(tokens, j, k)
  {
    TouchedBefore(tokens, j, k);
    TouchLinesMore(tokens, j, k);
    hide TouchLines, RoleAt, Scopes, Streak, SpanBegin, SpanEnd;
    assert TouchLines(tokens, j, k) + [] == TouchLines(tokens, j, k);
    if RoleAt(tokens, k).Touches() && Top(Scopes(tokens, k)) == Some(tokens[j].word) {
      SpanMore(TouchLines(tokens, j, k), LineOf(tokens, k));
    }
  }

  lemma {:induction false} RowsTouched(tokens: seq<Token>, j: nat, k: nat)
    requires j <= k < |tokens|
    ensures RoleAt(tokens, k).Touches() ==>
      AllTouched(RowsUpTo(tokens, j, k), RowsUpTo(tokens, j, k + 1), Top(Scopes(tokens, k)), LineOf(tokens, k))
    ensures !RoleAt(tokens, k).Touches() ==> RowsUpTo(tokens, j, k + 1) == RowsUpTo(tokens, j, k)
  {
    hide RoleAt, Scopes, RowOf, Touched, FirstFunction, LineOf;
    if j > 0 {
      RowsTouched(tokens, j - 1, k);
      RowOfTouched(tokens, j - 1, k);
    }
  }

  /** All there is to know before index k. */
  datatype Reading = Reading(before: seq<nat>, scopes: seq<string>, complaints: seq<Report>,
                             variables: seq<VariableRow>, procedures: seq<ProcedureRow>)

  ghost function ReadTo(tokens: seq<Token>, k: nat): Reading
    requires k <= |tokens|
  {
    Reading(Before(tokens, k), Scopes(tokens, k), Undeclared(tokens, k), VariableRows(tokens, k),
            FunctionRows(tokens, k))
  }

  lemma NothingRead(tokens: seq<Token>)
    ensures ReadTo(tokens, 0) == Reading([], ["main"], [], [], [])
  {
  }

  /** A token that is no name adds nothing; `end` closes a scope. */
  lemma PassToken(tokens: seq<Token>, k: nat)
    requires k < |tokens| && tokens[k].code != IDENTIFIER
    ensures var r, t, code := ReadTo(tokens, k), ReadTo(tokens, k + 1), tokens[k].code;
      && t.before == r.before + (if code == EOLN then [] else [code])
      && t.scopes == (if code == END && r.scopes != [] then r.scopes[..|r.scopes| - 1] else r.scopes)
      && t.complaints == r.complaints && t.variables == r.variables && t.procedures == r.procedures
      && (code == EOLN ==> t == r)
  {
    RowsTouched(tokens, k, k);
  }

  /** A name changes the tables as its role demands. */
  ghost predicate Names(r: Reading, t: Reading, role: Role, word: string, line: nat) {
    && t.before == r.before + [IDENTIFIER]
    && t.scopes == (if role.NamesFunction? then r.scopes + [word] else r.scopes)
    && t.complaints == (if role.Uses? then r.complaints + Complaint(word, r.variables, r.procedures, line)
                        else r.complaints)
    && t.variables == (if role.Declares() then
                         Defined(r.variables, Some(word), Top(r.scopes), role.DeclaresFormal?, Depth(r.scopes))
                       else r.variables)
    && (role.Touches() ==> AllTouched(r.procedures, t.procedures, Top(r.scopes), line))
    && (role.Calls? ==> t.procedures == r.procedures)
    && (role.NamesFunction? ==>
         t.procedures == if IsProcedure(Some(word), r.procedures) then r.procedures
                         else r.procedures + [ProcedureRow(Some(word), |r.scopes|, -1, -1)])
  }

  lemma PassName(tokens: seq<Token>, k: nat)
    requires k < |tokens| && tokens[k].code == IDENTIFIER
    ensures Names(ReadTo(tokens, k), ReadTo(tokens, k + 1), RoleAt(tokens, k), tokens[k].word, LineOf(tokens, k))
  {
    var word := tokens[k].word;
    VariableHasRowAt(tokens, k, word);
    FunctionHasRowAt(tokens, k, k, word);
    RowsTouched(tokens, k, k);
  }

  lemma RoleIsRead(tokens: seq<Token>, k: nat)
    requires k < |tokens| && tokens[k].code == IDENTIFIER
    ensures RoleAt(tokens, k) == NameRole(ReadTo(tokens, k).before, CodesFrom(tokens, k + 1))
    ensures LineOf(tokens, k) == LineOf(tokens, k + 1) == 1 + Lines(tokens, k)
  {
  }

  // What comes before a name

  /** A name here neither declares nor names a function. */
  predicate Open(before: seq<nat>) {
    !Ends(before, [INTEGER]) && !Ends(before, [FUNCTION]) && !Ends(before, [FUNCTION, IDENTIFIER, LEFT])
  }

  lemma EndsOneMore(before: seq<nat>, code: nat, tail: seq<nat>, last: nat)
    ensures Ends(before + [code], tail + [last]) <==> code == last && Ends(before, tail)
  {
    if |tail| <= |before| {
      var n := |before| - |tail|;
      assert (before + [code])[n..] == before[n..] + [code];
      assert before[n..] + [code] == tail + [last] ==> before[n..] == tail && code == last by {
        if before[n..] + [code] == tail + [last] {
          assert (before[n..] + [code])[..|tail|] == before[n..] && (tail + [last])[..|tail|] == tail;
          assert (before[n..] + [code])[|tail|] == code && (tail + [last])[|tail|] == last;
        }
      }
    }
  }

  lemma EndsMore(before: seq<nat>, code: nat, a: nat, b: nat, c: nat)
    ensures Ends(before + [code], [a]) <==> code == a
    ensures Ends(before + [code], [a, b]) <==> code == b && Ends(before, [a])
    ensures Ends(before + [code], [a, b, c]) <==> code == c && Ends(before, [a, b])
  {
    EndsOneMore(before, code, [], a);
    EndsOneMore(before, code, [a], b);
    EndsOneMore(before, code, [a, b], c);
    EndsInNothing(before);
    hide Ends;
    assert [] + [a] == [a] && [a] + [b] == [a, b] && [a, b] + [c] == [a, b, c];
  }

  lemma EndsInNothing(before: seq<nat>)
    ensures Ends(before, [])
  {
  }

  lemma RoleExpected(before: seq<nat>, after: seq<nat>, defining: bool, formal: bool)
    ensures defining && formal && Ends(before, [FUNCTION, IDENTIFIER, LEFT]) ==>
      NameRole(before, after) == DeclaresFormal
    ensures defining && !formal && Ends(before, [INTEGER]) ==> NameRole(before, after) == DeclaresVariable
    ensures !defining && Open(before) ==>
      NameRole(before, after) == if after != [] && after[0] == LEFT then Calls else Uses
  {
    LastCode(before, [INTEGER]);
    LastCode(before, [FUNCTION]);
    LastCode(before, [FUNCTION, IDENTIFIER, LEFT]);
  }

  lemma RoleOfFunction(before: seq<nat>, after: seq<nat>)
    ensures Ends(before, [FUNCTION]) ==> NameRole(before, after) == NamesFunction
  {
    LastCode(before, [INTEGER]);
    LastCode(before, [FUNCTION]);
  }

  lemma LastCode(before: seq<nat>, tail: seq<nat>)
    requires tail != []
    ensures Ends(before, tail) ==> before != [] && before[|before| - 1] == tail[|tail| - 1]
  {
    if Ends(before, tail) {
      assert before[|before| - |tail|..][|tail| - 1] == before[|before| - 1];
    }
  }

  lemma TouchedOneWay(a: seq<ProcedureRow>, b: seq<ProcedureRow>, c: seq<ProcedureRow>, name: Name, line: nat)
    requires AllTouched(a, b, name, line) && AllTouched(a, c, name, line)
    ensures b == c
  {
  }

  /** What a declaration or a use makes of the tables is determined. */
  lemma NamesOneWay(r: Reading, t: Reading, role: Role, word: string, line: nat, procedures: seq<ProcedureRow>)
    requires Names(r, t, role, word, line)
    ensures role.Declares() ==>
      && t.scopes == r.scopes && t.complaints == r.complaints
      && t.variables == Defined(r.variables, Some(word), Top(r.scopes), role.DeclaresFormal?, Depth(r.scopes))
    ensures role.Uses? ==>
      && t.scopes == r.scopes && t.variables == r.variables
      && t.complaints == r.complaints + Complaint(word, r.variables, r.procedures, line)
    ensures role.Touches() && AllTouched(r.procedures, procedures, Top(r.scopes), line) ==> procedures == t.procedures
  {
    if role.Touches() && AllTouched(r.procedures, procedures, Top(r.scopes), line) {
      TouchedOneWay(r.procedures, procedures, t.procedures, Top(r.scopes), line);
    }
  }

  /** What a function's name makes of the tables. */
  ghost predicate Scoped(r: Reading, t: Reading, word: string) {
    && t.before == r.before + [IDENTIFIER] && t.complaints == r.complaints && t.variables == r.variables
    && t.scopes != [] && t.scopes[..|t.scopes| - 1] == r.scopes
    && Top(t.scopes) == Some(word) && Depth(t.scopes) == |r.scopes|
    && t.procedures == if IsProcedure(Some(word), r.procedures) then r.procedures
                       else r.procedures + [ProcedureRow(Some(word), |r.scopes|, -1, -1)]
  }

  lemma NewScope(r: Reading, t: Reading, role: Role, word: string, line: nat)
    requires Names(r, t, role, word, line)
    ensures role.NamesFunction? ==> Scoped(r, t, word)
  {
  }

  // What the spans say

  predicate Ascending(lines: seq<nat>) {
    forall i, j :: 0 <= i < j < |lines| ==> lines[i] <= lines[j]
  }

  /** A name that is declared or used at index i, in a function of the name at j before it. */
  predicate TouchesAt(tokens: seq<Token>, j: nat, i: nat)
    requires j < |tokens| && i < |tokens|
  {
    j < i && RoleAt(tokens, i).Touches() && Top(Scopes(tokens, i)) == Some(tokens[j].word)
  }

  /** The lines are those of the names declared or used in a function, in order. */
  ghost predicate LinesOfNames(tokens: seq<Token>, j: nat, k: nat, lines: seq<nat>)
    requires j < |tokens| && k <= |tokens|
  {
    && Ascending(lines)
    && (forall i :: 0 <= i < k && TouchesAt(tokens, j, i) ==> LineOf(tokens, i) in lines)
    && forall line :: line in lines ==> line <= LineOf(tokens, k) && NameOnLine(tokens, j, k, line)
  }

  ghost predicate NameOnLine(tokens: seq<Token>, j: nat, k: nat, line: nat)
    requires j < |tokens| && k <= |tokens|
  {
    exists i :: 0 <= i < k && TouchesAt(tokens, j, i) && LineOf(tokens, i) == line
  }

  lemma OneMoreLine(tokens: seq<Token>, j: nat, k: nat, lines: seq<nat>)
    requires j < |tokens| && k < |tokens| && LinesOfNames(tokens, j, k, lines)
    ensures TouchesAt(tokens, j, k) ==> LinesOfNames(tokens, j, k + 1, lines + [LineOf(tokens, k)])
    ensures !TouchesAt(tokens, j, k) ==> LinesOfNames(tokens, j, k + 1, lines)
  {
    hide LineOf, TouchesAt;
    LinesGrow(tokens, k);
    forall line | line in lines
      ensures NameOnLine(tokens, j, k + 1, line)
    {
      var i :| 0 <= i < k && TouchesAt(tokens, j, i) && LineOf(tokens, i) == line;
    }
    if TouchesAt(tokens, j, k) {
      assert NameOnLine(tokens, j, k + 1, LineOf(tokens, k));
      assert forall line :: line in lines + [LineOf(tokens, k)] <==> line in lines || line == LineOf(tokens, k);
      assert forall i :: 0 <= i < |lines| ==> lines[i] in lines;
    }
  }

  lemma NoLines(tokens: seq<Token>, j: nat)
    requires j < |tokens|
    ensures TouchLines(tokens, j, 0) == [] && LinesOfNames(tokens, j, 0, [])
  {
  }

  lemma {:induction false} TouchLinesAreThose(tokens: seq<Token>, j: nat, k: nat)
    requires j < |tokens| && k <= |tokens|
    ensures LinesOfNames(tokens, j, k, TouchLines(tokens, j, k))
    decreases k
  {
    hide LinesOfNames, TouchLines, TouchesAt, LineOf;
    if k == 0 {
      NoLines(tokens, j);
    } else {
      TouchLinesAreThose(tokens, j, k - 1);
      OneMoreLine(tokens, j, k - 1, TouchLines(tokens, j, k - 1));
      TouchLinesNext(tokens, j, k - 1);
    }
  }

  lemma TouchLinesNext(tokens: seq<Token>, j: nat, k: nat)
    requires j < |tokens| && k < |tokens|
    ensures var lines := TouchLines(tokens, j, k);
      TouchLines(tokens, j, k + 1) == if TouchesAt(tokens, j, k) then lines + [LineOf(tokens, k)] else lines
  {
    hide RoleAt, Scopes, LineOf;
    var lines := TouchLines(tokens, j, k);
    assert lines + [] == lines;
  }

  /** m consecutive lines end at the last one, and no more. */
  predicate EndsRun(lines: seq<nat>, m: nat)
    requires lines != []
  {
    var last := lines[|lines| - 1];
    0 < m <= last + 1 && (forall l :: last - m < l <= last ==> l in lines) && last - m !in lines
  }

  lemma RunMore(lines: seq<nat>, line: nat, m: nat)
    requires lines != [] && Ascending(lines + [line]) && EndsRun(lines, m)
    ensures var last := lines[|lines| - 1];
      EndsRun(lines + [line], if line == last then m else if line == last + 1 then m + 1 else 1)
  {
    var more, last := lines + [line], lines[|lines| - 1];
    assert more[|lines| - 1] == last && more[|lines|] == line;
    assert forall l :: l in more <==> l in lines || l == line;
    assert forall l :: l in lines ==> l <= last by {
      forall l | l in lines
        ensures l <= last
      {
        var i :| 0 <= i < |lines| && lines[i] == l;
        assert more[i] == l && more[|lines| - 1] == last;
      }
    }
  }

  lemma AscendingFront(lines: seq<nat>, n: nat)
    requires n <= |lines| && Ascending(lines)
    ensures Ascending(lines[..n])
  {
  }

  lemma OneLineRun(lines: seq<nat>)
    requires |lines| == 1
    ensures EndsRun(lines, 1)
  {
  }

  lemma {:induction false} StreakIsRun(lines: seq<nat>)
    requires lines != [] && Ascending(lines)
    ensures EndsRun(lines, Streak(lines))
  {
    hide EndsRun, Ascending;
    var n := |lines| - 1;
    if n == 0 {
      OneLineRun(lines);
    } else {
      AscendingFront(lines, n);
      StreakIsRun(lines[..n]);
      assert lines == lines[..n] + [lines[n]];
      RunMore(lines[..n], lines[n], Streak(lines[..n]));
    }
  }

  /** A function's span begins with the first line of a name declared or used in it and ends with the last one or,
      exactly when the run of consecutive such lines before it is odd, one line beyond. */
  lemma SpanIsFirstToLast(tokens: seq<Token>, j: nat, k: nat) returns (m: nat)
    requires j < |tokens| && k <= |tokens|
    ensures var lines, row := TouchLines(tokens, j, k), RowOf(tokens, j, k);
      && (lines == [] ==> row.begin == row.end == -1)
      && (lines != [] ==>
        var last := lines[|lines| - 1];
        && row.begin == lines[0] && (forall line :: line in lines ==> lines[0] <= line <= last)
        && EndsRun(lines, m) && row.end == last + m % 2)
  {
    var lines := TouchLines(tokens, j, k);
    m := Streak(lines);
    TouchLinesAreThose(tokens, j, k);
    if lines != [] {
      StreakIsRun(lines);
    }
  }

  /** So a function with names on one line only is said to end on the next. */
  lemma OneLineEndsOnNext(tokens: seq<Token>, j: nat, k: nat, line: nat)
    requires j < |tokens| && k <= |tokens|
    requires TouchLines(tokens, j, k) != [] && forall l :: l in TouchLines(tokens, j, k) ==> l == line
    ensures RowOf(tokens, j, k).begin == line && RowOf(tokens, j, k).end == line + 1
  {
    hide RowOf, TouchLines, Streak;
    var m := SpanIsFirstToLast(tokens, j, k);
    var lines := TouchLines(tokens, j, k);
    assert lines[0] in lines && lines[|lines| - 1] in lines;
    assert m > 1 ==> line - 1 in lines;
  }
}
