/** Lines of the script language that the handlers, as written, treat
    differently from C++: a pointer declared with `new` on the same line
    (whichever side the star is on), an assignment from `std::move(...)`,
    a smart pointer declared with make_unique, and a type naming two
    keywords.  Each is a general lemma, most followed by a concrete line. */
module Scenarios {
  import opened Common
  import opened ScriptText
  import opened MemoryBlock
  import opened MemoryManager
  import opened ScriptParser
  import opened ParserProperties

  /** A word followed by one blank trims back to the word. */
  lemma TrimTrailingBlank(w: string)
    requires w != [] && !IsTrimSpace(w[0]) && !IsTrimSpace(w[|w| - 1])
    ensures Trim(w + " ") == w
  {
    var s := w + " ";
    assert s[..|w|] == w;
    assert FirstNotSpace(s, 0) == Some(0);
    assert LastNotSpace(s) == LastNotSpace(w);
  }

  /** One blank followed by a word trims back to the word. */
  lemma TrimLeadingBlank(w: string)
    requires w != [] && !IsTrimSpace(w[0]) && !IsTrimSpace(w[|w| - 1])
    ensures Trim(" " + w) == w
  {
    var s := " " + w;
    assert s[1..] == w;
    assert FirstNotSpace(s, 1) == Some(1);
    assert FirstNotSpace(s, 0) == Some(1);
    assert LastNotSpace(s) == Some(|w|);
    assert s[1..|w| + 1] == w;
  }

  /** No basic type name holds a star. */
  lemma StarredNotBasic(t: string)
    requires '*' in t
    ensures !IsBasicType(t)
  {
    forall b | b in BASIC_TYPES
      ensures '*' !in b
    {
    }
  }

  // -----------------------------------------------------------------------
  // `int* ptr = new int;`
  // -----------------------------------------------------------------------

  /** A `= new` line whose first token holds a star (`int* p = new int;`)
      is not declared first: it goes straight to parseNew, which looks up
      the whole text before the '=' as a variable.  Since no variable name
      holds a blank, the line fails and memory is untouched. */
  lemma StarredNewDeclarationFails(s: Session, t: string, eq: nat)
    requires NamesAreTokens(s.p)
    requires |Tokenize(t)| >= 2 && '*' in Tokenize(t)[0] && Tokenize(t)[0] !in s.p.classes
    requires FindChar(t, '=') == Some(eq) && Contains(t, "new ")
    requires !NoStreamSpace(Trim(t[..eq]))
    ensures NewLine(s, t) == Fail(s, "Undefined variable: " + Trim(t[..eq]))
  {
    StarredNotBasic(Tokenize(t)[0]);
    assert Trim(t[..eq]) !in s.p.variables;
  }

  const NEW_LINE: string := "int* ptr = new int;"

  lemma NewLineTokens()
    ensures Tokenize(NEW_LINE) == ["int*", "ptr", "=", "new", "int;"]
  {
    var ts := ["int*", "ptr", "=", "new", "int;"];
    assert JoinWords(ts) == NEW_LINE;
    TokenizeJoinWords(ts);
  }

  lemma NewLineSearch(line: string)
    requires line == NEW_LINE
    ensures FindChar(line, '=') == Some(9) && Contains(line, "new ")
  {
    assert line[9] == '=' && forall k :: 0 <= k < 9 ==> line[k] != '=';
    assert OccursAt(line, "new ", 11);
  }

  /** The text parseNew takes for the variable of `int* ptr = new int;`. */
  lemma NewLineLeft()
    ensures Trim(NEW_LINE[..9]) == "int* ptr" && !NoStreamSpace("int* ptr")
  {
    assert NEW_LINE[..9] == "int* ptr" + " ";
    TrimTrailingBlank("int* ptr");
    assert "int* ptr"[4] == ' ';
  }

  /** So `int* ptr = new int;` fails: "int* ptr" is no variable. */
  lemma StarredNewLineFails(s: Session)
    requires NamesAreTokens(s.p) && "int*" !in s.p.classes
    ensures NewLine(s, NEW_LINE) == Fail(s, "Undefined variable: " + "int* ptr")
  {
    NewLineTokens();
    NewLineSearch(NEW_LINE);
    NewLineLeft();
    StarredNewDeclarationFails(s, NEW_LINE, 9);
  }

  /** A `= new` line whose first token is a basic or class type is
      declared first, and then parseNew runs on the whole line, looking up
      the whole trimmed text before the '='.  When that text holds a blank
      (`int *p = new int;`, `int p = new int;`) it is no variable name, so
      the line fails after its declaration, whose block stays behind. */
  lemma DeclaredNewLineFails(s: Session, t: string, eq: nat)
    requires NamesAreTokens(s.p)
    requires |Tokenize(t)| >= 2 && (IsBasicType(Tokenize(t)[0]) || IsClassType(s.p, Tokenize(t)[0]))
    requires FindChar(t, '=') == Some(eq) && Contains(t, "new ")
    requires !NoStreamSpace(Trim(t[..eq]))
    ensures var d := ParseDeclaration(s, DeclPart(t, eq));
      NewLine(s, t) == if d.ok then Fail(d.s, "Undefined variable: " + Trim(t[..eq])) else d
  {
    var d := ParseDeclaration(s, DeclPart(t, eq));
    DeclarationKeepsNames(s, DeclPart(t, eq));
    if d.ok {
      assert Trim(t[..eq]) !in d.s.p.variables;
    }
  }

  const DECL_NEW_LINE: string := "int *p = new int;"

  lemma DeclNewLineTokens(line: string)
    requires line == DECL_NEW_LINE
    ensures Tokenize(line) == ["int", "*p", "=", "new", "int;"]
  {
    var ts := ["int", "*p", "=", "new", "int;"];
    assert JoinWords(ts) == line;
    TokenizeJoinWords(ts);
  }

  lemma DeclNewLineSearch(line: string)
    requires line == DECL_NEW_LINE
    ensures FindChar(line, '=') == Some(7) && Contains(line, "new ")
  {
    assert line[7] == '=' && forall k :: 0 <= k < 7 ==> line[k] != '=';
    assert OccursAt(line, "new ", 9);
  }

  /** The declaration `int *p;` that precedes the parseNew call. */
  lemma DeclNewLineParts(line: string)
    requires line == DECL_NEW_LINE
    ensures Trim(line[..7]) == "int *p" && !NoStreamSpace("int *p")
    ensures DeclPart(line, 7) == "int *p;" && Tokenize(DeclPart(line, 7)) == ["int", "*p;"]
  {
    assert line[..7] == "int *p" + " ";
    TrimTrailingBlank("int *p");
    assert "int *p"[3] == ' ';
    assert JoinWords(["int", "*p;"]) == "int *p" + ";";
    TokenizeJoinWords(["int", "*p;"]);
  }

  /** So `int *p = new int;` declares `p` and then fails with
      "Undefined variable: int *p"; the declaration part is `int *p;`
      (see DeclNewLineParts). */
  lemma StarredNameNewLineFails(s: Session, line: string)
    requires line == DECL_NEW_LINE
    requires NamesAreTokens(s.p)
    ensures var d := ParseDeclaration(s, DeclPart(line, 7));
      && d.ok && "p" in d.s.p.variables
      && NewLine(s, line) == Fail(d.s, "Undefined variable: " + "int *p")
  {
    DeclNewLineTokens(line);
    DeclNewLineSearch(line);
    DeclNewLineParts(line);
    DeclaredNewLineFails(s, line, 7);
    var dp := DeclPart(line, 7);
    StarredNameIsP(Tokenize(dp)[1]);
  }

  lemma StarredNameIsP(tok: string)
    requires tok == "*p;"
    ensures DeclName(tok) == "p"
  {
    assert StripSemicolon(tok) == "*p";
  }

  // -----------------------------------------------------------------------
  // `p2 = std::move(p1);`
  // -----------------------------------------------------------------------

  /** An assignment whose right-hand side is neither a variable nor a null
      literal (a call such as `std::move(p1)`, a number, an address-of)
      succeeds and changes nothing: only a bare variable name on the
      right reaches the copy and move branches. */
  lemma AssignFromExpressionIsNoOp(s: Session, line: string, eq: nat)
    requires FindChar(line, '=') == Some(eq)
    requires var left := Trim(line[..eq]);
      left in s.p.variables && FindIndex(s.m.blocks, s.p.variables[left]).Some?
    requires RightSide(line, eq) !in s.p.variables && !IsNullLiteral(RightSide(line, eq))
    ensures ParseAssignment(s, line) == Pass(s)
  {
  }

  const MOVE_LINE: string := "p2 = std::move(p1);"

  lemma MoveLineEquals()
    ensures FindChar(MOVE_LINE, '=') == Some(3)
  {
  }

  /** The two sides parseAssignment takes from `p2 = std::move(p1);`. */
  lemma MoveLineSides()
    ensures Trim(MOVE_LINE[..3]) == "p2"
    ensures RightSide(MOVE_LINE, 3) == "std::move(p1)"
  {
    assert MOVE_LINE[..3] == "p2" + " ";
    TrimTrailingBlank("p2");
    assert MOVE_LINE[4..] == " " + "std::move(p1);";
    TrimLeadingBlank("std::move(p1);");
    assert "std::move(p1);"[..13] == "std::move(p1)";
    TrimOfTrimmed("std::move(p1)");
  }

  /** So `p2 = std::move(p1);` leaves both pointers as they were. */
  lemma StdMoveIsNoOp(s: Session, line: string)
    requires line == MOVE_LINE
    requires "p2" in s.p.variables && FindIndex(s.m.blocks, s.p.variables["p2"]).Some?
    requires "std::move(p1)" !in s.p.variables
    ensures ParseAssignment(s, line) == Pass(s)
  {
    MoveLineEquals();
    MoveLineSides();
    assert !IsNullLiteral("std::move(p1)");
    AssignFromExpressionIsNoOp(s, line, 3);
  }

  // -----------------------------------------------------------------------
  // `unique_ptr<int> p = make_unique<int>();`
  // -----------------------------------------------------------------------

  /** A four-token smart-pointer line `T<U> name = init;` whose name holds
      no '>' gives parseSmartPtr no name: the only tokens it may pick a
      name after are the name itself and the "=".  So the usual spelling
      of a make_unique / make_shared declaration, such as
      `unique_ptr<int> p = make_unique<int>();`, fails and declares
      nothing. */
  lemma SmartInitLineFails(s: Session, line: string)
    requires |Tokenize(line)| == 4 && Tokenize(line)[2] == "=" && '>' !in Tokenize(line)[1]
    ensures ParseSmartPtr(s, line) == Fail(s, "Cannot extract variable name")
  {
    var ts := Tokenize(line);
    assert FindChar(ts[2], '>').None?;
    assert NameAfterAngle(ts, 3) == None;
    assert NameAfterAngle(ts, 2) == None;
    assert NameAfterAngle(ts, 1) == None;
  }

  // -----------------------------------------------------------------------
  // getTypeSize
  // -----------------------------------------------------------------------

  /** Since "int" is searched first, `long int` is sized as int. */
  lemma LongIntSizedAsInt()
    ensures GetTypeSize("long int") == 4
  {
    assert OccursAt("long int", "int", 5);
  }

  /** A class name holding none of the keywords gets sizeof(int). */
  lemma UnknownTypeSize()
    ensures GetTypeSize("Node") == DEFAULT_TYPE_SIZE
  {
    AbsentNotContained("Node", "int", 0);
    AbsentNotContained("Node", "double", 2);
    AbsentNotContained("Node", "float", 0);
    AbsentNotContained("Node", "char", 0);
    AbsentNotContained("Node", "long", 0);
    AbsentNotContained("Node", "short", 0);
    AbsentNotContained("Node", "bool", 0);
  }
}
