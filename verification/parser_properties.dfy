/** Properties of the interpreter that relate several handlers or several
    lines: variable names are always single tokens, class bodies never
    touch memory, code outside a function is ignored, a failing line ends
    a script, and a destructor line is recorded as a constructor. */
module ParserProperties {
  import opened Common
  import opened ScriptText
  import opened MemoryBlock
  import opened MemoryManager
  import opened ScriptParser

  // -----------------------------------------------------------------------
  // Variable names are single tokens
  // -----------------------------------------------------------------------

  /** No variable name holds a character `operator>>` would split at. */
  predicate NamesAreTokens(p: Parser) {
    forall v :: v in p.variables ==> NoStreamSpace(v)
  }

  lemma NamesFresh()
    ensures NamesAreTokens(FreshParser())
  {
  }

  /** Dropping a semicolon or a leading star keeps a token a token. */
  lemma CleanedNameIsToken(t: string)
    requires NoStreamSpace(t)
    ensures NoStreamSpace(StripSemicolon(t)) && NoStreamSpace(DeclName(t))
  {
    var n := StripSemicolon(t);
    assert forall i :: 0 <= i < |n| ==> n[i] == t[i];
    if |n| > 0 && n[0] == '*' {
      assert forall i :: 0 <= i < |n| - 1 ==> DeclName(t)[i] == n[i + 1];
    }
  }

  /** Binding one more token-shaped name keeps every name a token. */
  lemma BindKeepsNames(p: Parser, v: string, id: int)
    requires NamesAreTokens(p) && NoStreamSpace(v)
    ensures NamesAreTokens(p.(variables := p.variables[v := id]))
  {
  }

  lemma DeclarationKeepsNames(s: Session, line: string)
    requires NamesAreTokens(s.p)
    ensures NamesAreTokens(ParseDeclaration(s, line).s.p)
  {
    var ts := Tokenize(line);
    if |ts| >= 2 {
      CleanedNameIsToken(ts[1]);
      BindKeepsNames(s.p, DeclName(ts[1]), s.m.nextId);
    }
  }

  lemma ObjectDeclarationKeepsNames(s: Session, line: string)
    requires NamesAreTokens(s.p)
    ensures NamesAreTokens(ParseObjectDeclaration(s, line).s.p)
  {
    var ts := Tokenize(line);
    if |ts| >= 2 && IsClassType(s.p, ts[0]) {
      CleanedNameIsToken(ts[1]);
      BindKeepsNames(s.p, DeclName(ts[1]), s.m.nextId);
    }
  }

  lemma SmartPtrKeepsNames(s: Session, line: string)
    requires NamesAreTokens(s.p)
    ensures NamesAreTokens(ParseSmartPtr(s, line).s.p)
  {
    var ts := Tokenize(line);
    if |ts| >= 2 && SmartVarName(ts).Some? {
      var j := NameAfterAngle(ts, 1).value;
      CleanedNameIsToken(ts[j + 1]);
      CleanedNameIsToken(ts[1]);
      BindKeepsNames(s.p, SmartVarName(ts).value, s.m.nextId);
    }
  }

  /** An assignment only ever rebinds a name that is already bound. */
  lemma AssignmentKeepsNames(s: Session, line: string)
    requires NamesAreTokens(s.p)
    ensures ParseAssignment(s, line).s.p.variables.Keys == s.p.variables.Keys
    ensures NamesAreTokens(ParseAssignment(s, line).s.p)
  {
    match FindChar(line, '=')
    case None =>
    case Some(eq) =>
      var left := Trim(line[..eq]);
      if left in s.p.variables && FindIndex(s.m.blocks, s.p.variables[left]).Some? {
        var li := FindIndex(s.m.blocks, s.p.variables[left]).value;
        var r := AssignEffect(s, left, li, RightSide(line, eq), line);
        assert s.p.variables[left := s.m.nextId].Keys == s.p.variables.Keys;
        assert r.p.variables.Keys == s.p.variables.Keys;
      }
  }

  lemma StatementKeepsNames(s: Session, t: string)
    requires NamesAreTokens(s.p)
    ensures NamesAreTokens(StatementLine(s, t).s.p)
  {
    if StartsWith(t, "delete ") {
    } else if Contains(t, " = new ") {
      var ts := Tokenize(t);
      if |ts| >= 2 && (IsBasicType(ts[0]) || IsClassType(s.p, ts[0])) {
        var eq := match FindChar(t, '=') case Some(k) => k case None => |t|;
        DeclarationKeepsNames(s, Trim(t[..eq]) + ";");
      }
    } else if MentionsSmartPointer(t) {
      SmartPtrKeepsNames(s, t);
    } else if FindChar(t, '=').Some? && !Contains(t, "==") {
      var ts := Tokenize(t);
      if |ts| >= 3 && IsBasicType(ts[0]) {
        match FindChar(t, '=')
        case None => DeclarationKeepsNames(s, t);
        case Some(eq) => DeclarationKeepsNames(s, DeclPart(t, eq));
      } else if |ts| >= 2 && IsClassType(s.p, ts[0]) {
        ObjectDeclarationKeepsNames(s, t);
      } else {
        AssignmentKeepsNames(s, t);
      }
    } else {
      DeclarationKeepsNames(s, t);
      ObjectDeclarationKeepsNames(s, t);
    }
  }

  /** Every variable any line binds is named by a single token. */
  lemma ExecuteLineKeepsNames(s: Session, line: string)
    requires NamesAreTokens(s.p)
    ensures NamesAreTokens(ExecuteLine(s, line).s.p)
  {
    var t := Trim(line);
    if t != [] && !StartsWith(t, "class ") && !s.p.inClass
       && !(Contains(t, "int main") || Contains(t, "void main"))
       && !StartsWith(t, "return") && t != "{" && t != "}" && s.p.inFunction {
      StatementKeepsNames(s, t);
    }
  }

  // -----------------------------------------------------------------------
  // Routing
  // -----------------------------------------------------------------------

  /** No line handled inside a class body touches memory. */
  lemma ClassBodyKeepsMemory(s: Session, line: string)
    requires s.p.inClass
    ensures ExecuteLine(s, line).s.m == s.m
  {
  }

  /** Outside a function and a class body, a line that is not a class
      header, a function header, a return or a brace succeeds and changes
      nothing. */
  lemma OutsideFunctionIgnored(s: Session, line: string)
    requires !s.p.inFunction && !s.p.inClass
    requires var t := Trim(line);
      && !StartsWith(t, "class ") && !Contains(t, "int main") && !Contains(t, "void main")
      && !StartsWith(t, "return") && t != "{" && t != "}"
    ensures ExecuteLine(s, line) == Pass(s)
  {
  }

  /** Inside a function, a line naming a smart-pointer type or factory is
      handled as a smart-pointer declaration before any '=' is looked at,
      unless it is a delete or a `= new` line. */
  lemma SmartPointerRoutedFirst(s: Session, line: string)
    requires s.p.inFunction && !s.p.inClass
    requires var t := Trim(line);
      && t != [] && !StartsWith(t, "class ") && !Contains(t, "int main") && !Contains(t, "void main")
      && !StartsWith(t, "return") && t != "{" && t != "}"
      && !StartsWith(t, "delete ") && !Contains(t, " = new ")
      && MentionsSmartPointer(t)
    ensures ExecuteLine(s, line) == ParseSmartPtr(s, Trim(line))
  {
  }

  /** A class-body line that mentions the class's destructor `~C()` is
      recorded as a constructor, because it also contains `C()`; the
      destructor flag stays down. */
  lemma DestructorLineMarksConstructor(s: Session, line: string)
    requires s.p.inClass
    requires var t := Trim(line);
      && !StartsWith(t, "class ")
      && !StartsWith(t, "public:") && !StartsWith(t, "private:") && !StartsWith(t, "protected:")
      && t != "};"
      && Contains(t, "~" + s.p.currentClassName + "()")
    ensures var cn := s.p.currentClassName;
      ExecuteLine(s, line).s.p.classes == s.p.classes[cn := ClassAt(s.p, cn).(hasConstructor := true)]
  {
    var t := Trim(line);
    var cn := s.p.currentClassName;
    TildeContains(t, cn + "()");
    assert "~" + cn + "()" == "~" + (cn + "()");
  }

  /** Outside a class body a `{` line is parseScopeStart. */
  lemma OpenBraceLine(s: Session)
    requires !s.p.inClass
    ensures ExecuteLine(s, "{") == ParseScopeStart(s)
  {
    TrimOfTrimmed("{");
    StartsWithIsPrefix("{", "class ");
    StartsWithIsPrefix("{", "return");
    ShortNotContained("{", "int main");
    ShortNotContained("{", "void main");
  }

  /** Outside a class body a `}` line is parseScopeEnd. */
  lemma CloseBraceLine(s: Session)
    requires !s.p.inClass
    ensures ExecuteLine(s, "}") == ParseScopeEnd(s)
  {
    TrimOfTrimmed("}");
    StartsWithIsPrefix("}", "class ");
    StartsWithIsPrefix("}", "return");
    ShortNotContained("}", "int main");
    ShortNotContained("}", "void main");
  }

  /** `{` followed by `}` restores the scope depth and retires one stack
      block. */
  lemma BracePairRestoresDepth(s: Session)
    requires !s.p.inClass && s.p.scopeLevel >= 0
    ensures var a := ExecuteLine(s, "{");
      var b := ExecuteLine(a.s, "}");
      && a.ok && b.ok
      && b.s.p.scopeLevel == s.p.scopeLevel
      && b.s.m == EndScope(s.m)
      && b.s.p.inFunction == (s.p.inFunction && s.p.scopeLevel != 0)
  {
    OpenBraceLine(s);
    CloseBraceLine(ParseScopeStart(s).s);
  }

  // -----------------------------------------------------------------------
  // Scripts
  // -----------------------------------------------------------------------

  /** Lines after a failing line are never run: appending lines to a
      failing script changes nothing. */
  lemma {:induction false} FailureIgnoresRest(exec: (Session, string) -> Step, s: Session,
                                               a: seq<string>, b: seq<string>, i: nat)
    requires i <= |a|
    requires !RunLines(exec, s, a, i).ok
    ensures RunLines(exec, s, a + b, i) == RunLines(exec, s, a, i)
    decreases |a| - i
  {
    assert i < |a|;
    assert (a + b)[i] == a[i];
    if a[i] == [] {
      FailureIgnoresRest(exec, s, a, b, i + 1);
    } else if exec(s, a[i]).ok {
      FailureIgnoresRest(exec, exec(s, a[i]).s, a, b, i + 1);
    }
  }

  /** A successful run of `a` followed by `b` is the run of `b` from the
      state `a` leaves. */
  lemma {:induction false} SuccessComposes(exec: (Session, string) -> Step, s: Session,
                                            a: seq<string>, b: seq<string>, i: nat)
    requires i <= |a|
    requires RunLines(exec, s, a, i).ok
    ensures RunLines(exec, s, a + b, i) == RunLines(exec, RunLines(exec, s, a, i).s, a + b, |a|)
    decreases |a| - i
  {
    if i < |a| {
      assert (a + b)[i] == a[i];
      if a[i] == [] {
        SuccessComposes(exec, s, a, b, i + 1);
      } else {
        SuccessComposes(exec, exec(s, a[i]).s, a, b, i + 1);
      }
    }
  }

  /** The run stops at the first failing line: when the lines `a` before
      it succeed, the error is "Line n: " with that line's one-based index,
      followed by that line's own message, and the state is the one the
      failing line left. */
  lemma FirstFailureReported(exec: (Session, string) -> Step, s: Session,
                             a: seq<string>, t: string, b: seq<string>)
    requires RunLines(exec, s, a, 0).ok && t != []
    requires !exec(RunLines(exec, s, a, 0).s, t).ok
    ensures var st := exec(RunLines(exec, s, a, 0).s, t);
      RunLines(exec, s, a + [t] + b, 0) == Fail(st.s, LinePrefix(|a| + 1) + st.s.p.lastError)
  {
    SuccessComposes(exec, s, a, [t] + b, 0);
    assert a + [t] + b == a + ([t] + b);
    assert (a + ([t] + b))[|a|] == t;
  }

  /** So executeScript reports the first cleaned line that fails, by its
      one-based number in the script, followed by its own message. */
  lemma ScriptReportsFirstFailure(s: Session, script: string,
                                  a: seq<string>, t: string, b: seq<string>)
    requires CleanLines(SplitLines(script)) == a + [t] + b
    requires RunLines(ExecuteLine, s, a, 0).ok && t != []
    requires !ExecuteLine(RunLines(ExecuteLine, s, a, 0).s, t).ok
    ensures var st := ExecuteLine(RunLines(ExecuteLine, s, a, 0).s, t);
      ExecuteScript(s, script) == Fail(st.s, LinePrefix(|a| + 1) + st.s.p.lastError)
  {
    FirstFailureReported(ExecuteLine, s, a, t, b);
  }

  /** A script whose lines are all blank or comment-only once cleaned
      succeeds and changes nothing. */
  lemma {:induction false} BlankLinesSkipped(exec: (Session, string) -> Step, s: Session,
                                              lines: seq<string>, i: nat)
    requires i <= |lines|
    requires forall k :: i <= k < |lines| ==> lines[k] == []
    ensures RunLines(exec, s, lines, i) == Pass(s)
    decreases |lines| - i
  {
    if i < |lines| {
      BlankLinesSkipped(exec, s, lines, i + 1);
    }
  }

  /** So a script that is nothing but blank and comment-only lines leaves
      the session as it was. */
  lemma CommentOnlyScript(s: Session, script: string)
    requires forall k :: 0 <= k < |SplitLines(script)| ==> CleanLine(SplitLines(script)[k]) == []
    ensures ExecuteScript(s, script) == Pass(s)
  {
    var lines := CleanLines(SplitLines(script));
    BlankLinesSkipped(ExecuteLine, s, lines, 0);
  }
}
