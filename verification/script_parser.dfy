/** ScriptParser.cpp: the line-by-line interpreter of the C++-like script
    language.  A `Session` pairs the parser's own tables and flags with
    the memory manager it drives (the C++ parser holds a reference to
    it); every handler maps a session to the next session and the
    handler's boolean verdict. */
module ScriptParser {
  import opened Common
  import opened ScriptText
  import opened MemoryBlock
  import opened MemoryManager

  // -----------------------------------------------------------------------
  // State
  // -----------------------------------------------------------------------

  /** The parser's fields: variable table, class table, last error text,
      scope depth, and the function / class-body flags. */
  datatype Parser = Parser(
    variables: map<string, int>,
    classes: map<string, ClassInfo>,
    lastError: string,
    scopeLevel: int,
    inFunction: bool,
    inClass: bool,
    currentClassName: string)

  datatype Session = Session(p: Parser, m: Manager)

  /** The session after a handler, and the handler's return value. */
  datatype Step = Step(s: Session, ok: bool)

  /** The constructor's state. */
  function FreshParser(): Parser {
    Parser(map[], map[], "", 0, false, false, "")
  }

  /** reset: forget every variable and class, the error text, the scope
      depth and both flags. */
  function ResetParser(p: Parser): (r: Parser)
    ensures r.variables == map[] && r.classes == map[] && r.lastError == ""
    ensures r.scopeLevel == 0 && !r.inFunction && !r.inClass && r.currentClassName == ""
  {
    FreshParser()
  }

  function Pass(s: Session): Step {
    Step(s, true)
  }

  /** A failing handler records its message in `lastError`. */
  function Fail(s: Session, msg: string): Step {
    Step(s.(p := s.p.(lastError := msg)), false)
  }

  /** Every variable names a registered block. */
  predicate VarsRegistered(p: Parser, m: Manager) {
    forall v :: v in p.variables ==> HasId(m.blocks, p.variables[v])
  }

  /** Every class layout lines up with its total, and none records a
      destructor. */
  predicate ClassesSound(p: Parser) {
    forall c :: c in p.classes ==> WellFormedClass(p.classes[c]) && !p.classes[c].hasDestructor
  }

  /** What holds of every session the interpreter can reach from a fresh
      or reset one. */
  predicate SessionValid(s: Session) {
    && Valid(s.m)
    && VarsRegistered(s.p, s.m)
    && ClassesSound(s.p)
    && s.p.scopeLevel >= 0
  }

  lemma FreshSessionValid()
    ensures SessionValid(Session(FreshParser(), Fresh()))
  {
  }

  /** Registered variables stay registered while ids are kept. */
  lemma VarsSurvive(p: Parser, m: Manager, r: Manager)
    requires KeepsIds(m, r)
    ensures VarsRegistered(p, m) ==> VarsRegistered(p, r)
  {
    if VarsRegistered(p, m) {
      forall v | v in p.variables
        ensures HasId(r.blocks, p.variables[v])
      {
        KeepsIdsHasId(m, r, p.variables[v]);
      }
    }
  }

  // -----------------------------------------------------------------------
  // Type helpers
  // -----------------------------------------------------------------------

  /** The nine names isBasicType accepts. */
  const BASIC_TYPES: seq<string> :=
    ["int", "float", "double", "char", "long", "short", "bool", "void", "size_t"]

  predicate IsBasicType(t: string) {
    t in BASIC_TYPES
  }

  /** isPointerType: a star or "_ptr" anywhere in the type text. */
  predicate IsPointerType(t: string) {
    Contains(t, "*") || Contains(t, "_ptr")
  }

  /** isClassType: the name is a key of the class table. */
  predicate IsClassType(p: Parser, t: string) {
    t in p.classes
  }

  /** getPointerType: "unique_ptr" wins over "shared_ptr"; anything else
      is raw. */
  function GetPointerType(t: string): (pt: PointerType)
    ensures pt == Unique <==> Contains(t, "unique_ptr")
    ensures pt == Shared <==> !Contains(t, "unique_ptr") && Contains(t, "shared_ptr")
    ensures pt == Raw <==> !Contains(t, "unique_ptr") && !Contains(t, "shared_ptr")
  {
    if Find(t, "unique_ptr").Some? then Unique
    else if Find(t, "shared_ptr").Some? then Shared
    else Raw
  }

  /** The keywords getTypeSize searches for, in its order, with the sizes
      of an LP64 target. */
  const SIZE_TABLE: seq<(string, nat)> :=
    [("int", 4), ("double", 8), ("float", 4), ("char", 1), ("long", 8), ("short", 2), ("bool", 1)]

  /** sizeof(int), the answer when no keyword matches. */
  const DEFAULT_TYPE_SIZE: nat := 4

  /** The first table entry at or after `k` whose keyword occurs in `t`. */
  function SizeFrom(t: string, k: nat): (n: nat)
    requires k <= |SIZE_TABLE|
    ensures forall j :: k <= j < |SIZE_TABLE| && Contains(t, SIZE_TABLE[j].0)
              && (forall i :: k <= i < j ==> !Contains(t, SIZE_TABLE[i].0))
              ==> n == SIZE_TABLE[j].1
    ensures (forall j :: k <= j < |SIZE_TABLE| ==> !Contains(t, SIZE_TABLE[j].0)) ==> n == DEFAULT_TYPE_SIZE
    decreases |SIZE_TABLE| - k
  {
    if k == |SIZE_TABLE| then DEFAULT_TYPE_SIZE
    else if Find(t, SIZE_TABLE[k].0).Some? then SIZE_TABLE[k].1
    else SizeFrom(t, k + 1)
  }

  /** getTypeSize: the size of the first keyword of the table that occurs
      anywhere in the type text, sizeof(int) when none does. */
  function GetTypeSize(t: string): (n: nat)
    ensures forall j :: 0 <= j < |SIZE_TABLE| && Contains(t, SIZE_TABLE[j].0)
              && (forall i :: 0 <= i < j ==> !Contains(t, SIZE_TABLE[i].0))
              ==> n == SIZE_TABLE[j].1
    ensures (forall j :: 0 <= j < |SIZE_TABLE| ==> !Contains(t, SIZE_TABLE[j].0)) ==> n == DEFAULT_TYPE_SIZE
  {
    SizeFrom(t, 0)
  }

  /** Drop one trailing semicolon, as the handlers' `pop_back` does. */
  function StripSemicolon(s: string): (r: string)
    ensures r == s <==> !(|s| > 0 && s[|s| - 1] == ';')
    ensures r != s ==> r + ";" == s
  {
    if |s| > 0 && s[|s| - 1] == ';' then s[..|s| - 1] else s
  }

  /** A declared name spelled with a leading star (`int *p;`). */
  predicate Starred(tok: string) {
    var n := StripSemicolon(tok);
    |n| > 0 && n[0] == '*'
  }

  /** parseDeclaration's variable name: semicolon off, then the star. */
  function DeclName(tok: string): (r: string)
    ensures Starred(tok) ==> "*" + r == StripSemicolon(tok)
    ensures !Starred(tok) ==> r == StripSemicolon(tok)
  {
    var n := StripSemicolon(tok);
    if |n| > 0 && n[0] == '*' then n[1..] else n
  }

  /** getVariableId: the bound id, or -1. */
  function GetVariableId(p: Parser, name: string): (id: int)
    ensures name in p.variables ==> id == p.variables[name]
    ensures name !in p.variables ==> id == -1
  {
    if name in p.variables then p.variables[name] else -1
  }

  /** getClassInfo: the layout, or None for nullptr. */
  function GetClassInfo(p: Parser, name: string): (c: Option<ClassInfo>)
    ensures c.Some? <==> IsClassType(p, name)
    ensures c.Some? ==> c.value == p.classes[name]
  {
    if name in p.classes then Some(p.classes[name]) else None
  }

  /** In a valid session -1 is never a bound id, so getVariableId's answer
      says whether the name is bound, and a bound name's block is one
      findBlock finds. */
  lemma GetVariableIdSound(s: Session, v: string)
    requires SessionValid(s)
    ensures GetVariableId(s.p, v) != -1 <==> v in s.p.variables
    ensures GetVariableId(s.p, v) != -1 ==> FindIndex(s.m.blocks, GetVariableId(s.p, v)).Some?
  {
    if v in s.p.variables {
      var id := s.p.variables[v];
      assert HasId(s.m.blocks, id);
      var i :| 0 <= i < |s.m.blocks| && s.m.blocks[i].id == id;
      assert id >= 1;
      FindIndexIffHasId(s.m.blocks, id);
    }
  }

  /** In a valid session every layout getClassInfo returns is well formed
      (its total is the sum of its member sizes) and records no
      destructor. */
  lemma GetClassInfoSound(s: Session, n: string)
    requires SessionValid(s)
    ensures GetClassInfo(s.p, n).Some? ==>
      WellFormedClass(GetClassInfo(s.p, n).value) && !GetClassInfo(s.p, n).value.hasDestructor
  {
  }

  // -----------------------------------------------------------------------
  // Classes
  // -----------------------------------------------------------------------

  /** `classes[name]`: the layout, or a default one (which operator[]
      would insert). */
  function ClassAt(p: Parser, name: string): ClassInfo {
    if name in p.classes then p.classes[name] else DefaultClassInfo()
  }

  /** The class name in `class X {`: a trailing brace dropped, then trimmed. */
  function ClassNameOf(tok: string): string {
    var n := if |tok| > 0 && tok[|tok| - 1] == '{' then tok[..|tok| - 1] else tok;
    Trim(n)
  }

  /** parseClassDeclaration.  Fails without a name token.  Otherwise the
      class gets a fresh empty layout (replacing any earlier one of that
      name), becomes the current class, and a class body begins; no other
      class, no variable and no memory changes. */
  function ParseClassDeclaration(s: Session, line: string): (r: Step)
    ensures r.s.m == s.m
    ensures r.ok <==> |Tokenize(line)| >= 2
    ensures !r.ok ==> r.s.p == s.p.(lastError := "Invalid class declaration")
    ensures r.ok ==>
      var cn := ClassNameOf(Tokenize(line)[1]);
      && r.s.p.inClass && r.s.p.currentClassName == cn
      && r.s.p.classes.Keys == s.p.classes.Keys + {cn}
      && r.s.p.classes[cn].className == cn && r.s.p.classes[cn].memberNames == []
      && r.s.p.classes[cn].totalSize == 0 && WellFormedClass(r.s.p.classes[cn])
      && !r.s.p.classes[cn].hasConstructor && !r.s.p.classes[cn].hasDestructor
      && (forall k :: k in s.p.classes && k != cn ==> r.s.p.classes[k] == s.p.classes[k])
      && r.s.p.variables == s.p.variables && r.s.p.lastError == s.p.lastError
      && r.s.p.scopeLevel == s.p.scopeLevel && r.s.p.inFunction == s.p.inFunction
    ensures SessionValid(s) ==> SessionValid(r.s)
  {
    var ts := Tokenize(line);
    if |ts| < 2 then Fail(s, "Invalid class declaration")
    else
      var cn := ClassNameOf(ts[1]);
      var info := DefaultClassInfo().(className := cn);
      Pass(s.(p := s.p.(classes := s.p.classes[cn := info], inClass := true, currentClassName := cn)))
  }

  /** Every occurrence of "~" + x contains an occurrence of x. */
  lemma TildeContains(line: string, x: string)
    ensures Contains(line, "~" + x) ==> Contains(line, x)
  {
    ContainsIffOccurs(line, "~" + x);
    ContainsIffOccurs(line, x);
    if Contains(line, "~" + x) {
      var k: nat :| OccursAt(line, "~" + x, k);
      assert line[k + 1..k + 1 + |x|] == line[k..k + 1 + |x|][1..];
      assert OccursAt(line, x, k + 1);
    }
  }

  /** The member a class-body line declares, if any: the cleaned name,
      the type text and the size (a basic type's size, or the current
      total of a known class). */
  datatype Member = Member(name: string, typeName: string, size: nat)

  function MemberOf(p: Parser, ts: seq<string>): (r: Option<Member>)
    ensures r.Some? <==> |ts| >= 2 && (IsBasicType(ts[0]) || IsClassType(p, ts[0]))
    ensures r.Some? ==> r.value.name == StripSemicolon(ts[1]) && r.value.typeName == ts[0]
    ensures r.Some? && IsBasicType(ts[0]) ==> r.value.size == GetTypeSize(ts[0])
    ensures r.Some? && !IsBasicType(ts[0]) ==> r.value.size == p.classes[ts[0]].totalSize
  {
    if |ts| < 2 then None
    else if IsBasicType(ts[0]) then Some(Member(StripSemicolon(ts[1]), ts[0], GetTypeSize(ts[0])))
    else if ts[0] in p.classes then Some(Member(StripSemicolon(ts[1]), ts[0], p.classes[ts[0]].totalSize))
    else None
  }

  /** Append one member to a layout. */
  function AddMember(c: ClassInfo, mb: Member): (r: ClassInfo)
    ensures WellFormedClass(c) ==> WellFormedClass(r)
    ensures r.memberNames == c.memberNames + [mb.name]
    ensures r.memberTypes == c.memberTypes + [mb.typeName]
    ensures r.memberSizes == c.memberSizes + [mb.size]
    ensures r.totalSize == c.totalSize + mb.size
    ensures r.className == c.className
    ensures r.hasConstructor == c.hasConstructor && r.hasDestructor == c.hasDestructor
  {
    var sizes := c.memberSizes + [mb.size];
    SumAppend(c.memberSizes, mb.size);
    assert Sum(sizes) == Sum(c.memberSizes) + mb.size;
    ClassInfo(c.className, c.memberNames + [mb.name], c.memberTypes + [mb.typeName],
              sizes, c.totalSize + mb.size, c.hasConstructor, c.hasDestructor)
  }

  /** parseClassMember.  Always succeeds and never touches memory or any
      class but the current one.  A line holding "Name()" only records a
      constructor; since every destructor line "~Name()" holds "Name()",
      the destructor flag is never raised.  Otherwise a basic or known
      class type followed by a name appends a member and adds its size to
      the total; any other line changes nothing. */
  function ParseClassMember(s: Session, line: string): (r: Step)
    ensures r.ok && r.s.m == s.m
    ensures r.s.p == s.p.(classes := r.s.p.classes)
    ensures s.p.classes.Keys <= r.s.p.classes.Keys <= s.p.classes.Keys + {s.p.currentClassName}
    ensures forall k :: k in s.p.classes && k != s.p.currentClassName ==> r.s.p.classes[k] == s.p.classes[k]
    ensures
      var cn := s.p.currentClassName;
      var c := ClassAt(s.p, cn);
      && (Contains(line, cn + "()") ==> r.s.p.classes == s.p.classes[cn := c.(hasConstructor := true)])
      && (!Contains(line, cn + "()") && MemberOf(s.p, Tokenize(line)).Some? ==>
            r.s.p.classes == s.p.classes[cn := AddMember(c, MemberOf(s.p, Tokenize(line)).value)])
      && (!Contains(line, cn + "()") && MemberOf(s.p, Tokenize(line)).None? ==> r.s == s)
    ensures !ClassAt(s.p, s.p.currentClassName).hasDestructor ==> !ClassAt(r.s.p, s.p.currentClassName).hasDestructor
  {
    var cn := s.p.currentClassName;
    var c := ClassAt(s.p, cn);
    TildeContains(line, cn + "()");
    assert "~" + cn + "()" == "~" + (cn + "()");
    if Find(line, cn + "()").Some? then
      Pass(s.(p := s.p.(classes := s.p.classes[cn := c.(hasConstructor := true)])))
    else if Find(line, "~" + cn + "()").Some? then
      Pass(s.(p := s.p.(classes := s.p.classes[cn := c.(hasDestructor := true)])))
    else
      match MemberOf(s.p, Tokenize(line))
      case None => Pass(s)
      case Some(mb) => Pass(s.(p := s.p.(classes := s.p.classes[cn := AddMember(c, mb)])))
  }

  /** Class-body lines keep every layout well formed and destructor-free. */
  lemma ParseClassMemberValid(s: Session, line: string)
    ensures SessionValid(s) ==> SessionValid(ParseClassMember(s, line).s)
  {
    var r := ParseClassMember(s, line);
    var cn := s.p.currentClassName;
    if SessionValid(s) {
      assert WellFormedClass(ClassAt(s.p, cn));
      forall k | k in r.s.p.classes
        ensures WellFormedClass(r.s.p.classes[k]) && !r.s.p.classes[k].hasDestructor
      {
        if k != cn {
          assert r.s.p.classes[k] == s.p.classes[k];
        }
      }
    }
  }

  /** parseClassEnd: the class body is over. */
  function ParseClassEnd(s: Session): (r: Step)
    ensures r.ok && r.s.m == s.m
    ensures !r.s.p.inClass && r.s.p.currentClassName == ""
    ensures r.s.p.classes == s.p.classes && r.s.p.variables == s.p.variables
    ensures r.s.p.lastError == s.p.lastError && r.s.p.scopeLevel == s.p.scopeLevel
    ensures r.s.p.inFunction == s.p.inFunction
  {
    Pass(s.(p := s.p.(inClass := false, currentClassName := "")))
  }

  // -----------------------------------------------------------------------
  // Functions and scopes
  // -----------------------------------------------------------------------

  /** parseFunctionStart: a function body begins; the scope depth restarts
      at one when the brace is on the same line and at zero otherwise. */
  function ParseFunctionStart(s: Session, line: string): (r: Step)
    ensures r.ok && r.s.m == s.m && r.s.p.inFunction
    ensures r.s.p.scopeLevel == if '{' in line then 1 else 0
    ensures r.s.p == s.p.(inFunction := true, scopeLevel := r.s.p.scopeLevel)
  {
    Pass(s.(p := s.p.(inFunction := true, scopeLevel := if FindChar(line, '{').Some? then 1 else 0)))
  }

  /** parseScopeStart: one level deeper. */
  function ParseScopeStart(s: Session): (r: Step)
    ensures r.ok && r.s.m == s.m
    ensures r.s.p == s.p.(scopeLevel := s.p.scopeLevel + 1)
  {
    Pass(s.(p := s.p.(scopeLevel := s.p.scopeLevel + 1)))
  }

  /** parseScopeEnd.  At depth zero it fails and changes nothing else.
      Otherwise the depth drops by one, the manager retires one stack
      block, and the function body ends when the depth reaches zero. */
  function ParseScopeEnd(s: Session): (r: Step)
    ensures r.ok <==> s.p.scopeLevel > 0
    ensures !r.ok ==> r.s == s.(p := s.p.(lastError := "Unexpected scope end"))
    ensures r.ok ==>
      && r.s.m == EndScope(s.m)
      && r.s.p.scopeLevel == s.p.scopeLevel - 1
      && r.s.p.inFunction == (s.p.inFunction && s.p.scopeLevel != 1)
      && r.s.p == s.p.(scopeLevel := r.s.p.scopeLevel, inFunction := r.s.p.inFunction)
    ensures SessionValid(s) ==> SessionValid(r.s)
  {
    if s.p.scopeLevel > 0 then
      var level := s.p.scopeLevel - 1;
      EndScopeValid(s.m);
      VarsSurvive(s.p, s.m, EndScope(s.m));
      Pass(Session(s.p.(scopeLevel := level,
                        inFunction := if level == 0 && s.p.inFunction then false else s.p.inFunction),
                   EndScope(s.m)))
    else Fail(s, "Unexpected scope end")
  }

  // -----------------------------------------------------------------------
  // Declarations
  // -----------------------------------------------------------------------

  /** The block a pointer declaration ends up as. */
  function PointerBlock(id: int, name: string, pt: PointerType, cls: Option<string>): Block {
    DefaultBlock().(id := id, name := name, size := POINTER_SIZE, mtype := Stack, isAllocated := true,
                    isPointer := true, pointerType := pt, pointsTo := NULL_ID,
                    isObject := cls.Some?, classKey := cls)
  }

  /** What the handlers do through `findBlock` right after creating a
      stack variable: make it a null pointer of discipline `pt`, and, for
      an object pointer, record its class. */
  function MarkPointer(m: Manager, id: int, pt: PointerType, cls: Option<string>): (r: Manager)
    ensures r.nextId == m.nextId && r.stackDepth == m.stackDepth && r.events == m.events
    ensures |r.blocks| == |m.blocks|
    ensures forall k :: 0 <= k < |m.blocks| ==>
      r.blocks[k].id == m.blocks[k].id && r.blocks[k].refCount == m.blocks[k].refCount
    ensures FindIndex(m.blocks, id).None? ==> r == m
    ensures FindIndex(m.blocks, id).Some? ==>
      var i := FindIndex(m.blocks, id).value;
      var b := m.blocks[i];
      r.blocks == m.blocks[i := b.(isPointer := true, pointerType := pt, pointsTo := NULL_ID,
                                   isObject := cls.Some? || b.isObject,
                                   classKey := if cls.Some? then cls else b.classKey)]
    ensures Valid(m) ==> Valid(r)
  {
    match FindIndex(m.blocks, id)
    case None => m
    case Some(i) =>
      var b := m.blocks[i];
      m.(blocks := m.blocks[i := b.(isPointer := true, pointerType := pt, pointsTo := NULL_ID,
                                    isObject := cls.Some? || b.isObject,
                                    classKey := if cls.Some? then cls else b.classKey)])
  }

  /** A fresh id is found exactly at the end of the registry it was just
      appended to. */
  lemma FindFresh(m: Manager, b: Block)
    requires Valid(m) && b.id == m.nextId
    ensures FindIndex(m.blocks + [b], b.id) == Some(|m.blocks|)
  {
    FindIndexAppend(m.blocks, b, b.id);
  }

  /** Create a null pointer variable `name` of discipline `pt` on the
      stack and bind the name to it. */
  function DeclarePointer(s: Session, name: string, pt: PointerType, cls: Option<string>): (r: Session)
    ensures r.p == s.p.(variables := s.p.variables[name := s.m.nextId])
    ensures r.m.nextId == s.m.nextId + 1 && r.m.stackDepth == s.m.stackDepth + 1
    ensures r.m.events == AddEvent(s.m.events, Event(Allocated, s.m.nextId))
    ensures Valid(s.m) ==> r.m.blocks == s.m.blocks + [PointerBlock(s.m.nextId, name, pt, cls)]
    ensures KeepsIds(s.m, r.m)
    ensures SessionValid(s) ==> SessionValid(r)
  {
    var c := CreateStackVariable(s.m, name, POINTER_SIZE);
    var m2 := MarkPointer(c.m, c.v, pt, cls);
    assert KeepsIds(s.m, c.m);
    if Valid(s.m) then
      FindFresh(s.m, c.m.blocks[|s.m.blocks|]);
      assert c.m.blocks == s.m.blocks + [c.m.blocks[|s.m.blocks|]];
      assert KeepsIds(s.m, m2);
      VarsSurvive(s.p, s.m, m2);
      Session(s.p.(variables := s.p.variables[name := c.v]), m2)
    else
      Session(s.p.(variables := s.p.variables[name := c.v]), m2)
  }

  /** Create a plain stack variable `name` of `size` bytes and bind it. */
  function DeclareValue(s: Session, name: string, size: nat): (r: Session)
    ensures r.p == s.p.(variables := s.p.variables[name := s.m.nextId])
    ensures r.m == CreateStackVariable(s.m, name, size).m
    ensures KeepsIds(s.m, r.m)
    ensures SessionValid(s) ==> SessionValid(r)
  {
    var c := CreateStackVariable(s.m, name, size);
    assert KeepsIds(s.m, c.m);
    VarsSurvive(s.p, s.m, c.m);
    Session(s.p.(variables := s.p.variables[name := c.v]), c.m)
  }

  /** parseDeclaration.  Fails without a name token.  Otherwise exactly one
      stack variable is created and the cleaned name bound to it: a null
      raw pointer of pointer size when the type is a pointer type or the
      name is starred, a plain value of the type's size otherwise.  The
      parser's other fields are untouched. */
  function ParseDeclaration(s: Session, line: string): (r: Step)
    ensures r.ok <==> |Tokenize(line)| >= 2
    ensures !r.ok ==> r.s == s.(p := s.p.(lastError := "Invalid declaration: " + line))
    ensures r.ok ==>
      var ts := Tokenize(line);
      var isPtr := IsPointerType(ts[0]) || Starred(ts[1]);
      var nm := DeclName(ts[1]);
      && r.s.p == s.p.(variables := s.p.variables[nm := s.m.nextId])
      && r.s.m.nextId == s.m.nextId + 1
      && r.s.m.stackDepth == s.m.stackDepth + 1
      && r.s.m.events == AddEvent(s.m.events, Event(Allocated, s.m.nextId))
      && (Valid(s.m) ==>
            && |r.s.m.blocks| == |s.m.blocks| + 1
            && r.s.m.blocks[..|s.m.blocks|] == s.m.blocks
            && var b := r.s.m.blocks[|s.m.blocks|];
            && b.id == s.m.nextId && b.name == nm && b.mtype == Stack && b.isAllocated
            && b.isPointer == isPtr && b.pointerType == Raw && b.pointsTo == NULL_ID
            && b.size == (if isPtr then POINTER_SIZE else GetTypeSize(ts[0])))
    ensures KeepsIds(s.m, r.s.m)
    ensures SessionValid(s) ==> SessionValid(r.s)
  {
    var ts := Tokenize(line);
    if |ts| < 2 then Fail(s, "Invalid declaration: " + line)
    else
      var isPtr := IsPointerType(ts[0]) || Starred(ts[1]);
      var nm := DeclName(ts[1]);
      if isPtr then
        var r := DeclarePointer(s, nm, Raw, None);
        assert Valid(s.m) ==> r.m.blocks[..|s.m.blocks|] == s.m.blocks;
        Pass(r)
      else Pass(DeclareValue(s, nm, GetTypeSize(ts[0])))
  }

  /** The declaration half of `type name = value;`: what precedes the
      first '=', trimmed and closed with a semicolon. */
  function DeclPart(line: string, eq: nat): string
    requires eq <= |line|
  {
    Trim(line[..eq]) + ";"
  }

  /** parseDeclarationWithInit: declares what precedes the first '=' and
      ignores the value; with no '=' it is a plain declaration. */
  function ParseDeclarationWithInit(s: Session, line: string): (r: Step)
    ensures FindChar(line, '=').None? ==> r == ParseDeclaration(s, line)
    ensures FindChar(line, '=').Some? ==> r == ParseDeclaration(s, DeclPart(line, FindChar(line, '=').value))
    ensures KeepsIds(s.m, r.s.m)
    ensures SessionValid(s) ==> SessionValid(r.s)
  {
    match FindChar(line, '=')
    case None => ParseDeclaration(s, line)
    case Some(eq) => ParseDeclaration(s, DeclPart(line, eq))
  }

  /** The success path of parseObjectDeclaration for class `cn` and name
      token `tok`: a starred name declares a null raw object pointer
      carrying the class; any other name creates a stack object of the
      class's current total size.  Either way the cleaned name is bound to
      the new id and nothing else in the parser changes. */
  function DeclareObject(s: Session, cn: string, tok: string): (r: Session)
    requires cn in s.p.classes && tok != []
    ensures r.p == s.p.(variables := s.p.variables[DeclName(tok) := s.m.nextId])
    ensures r.m.nextId == s.m.nextId + 1
    ensures r.m.stackDepth == s.m.stackDepth + 1
    ensures KeepsIds(s.m, r.m)
    ensures SessionValid(s) ==> SessionValid(r)
  {
    var isPtr := tok[0] == '*';
    var nm := StripSemicolon(if isPtr then tok[1..] else tok);
    ObjectNameIsDeclName(tok);
    if isPtr then DeclarePointer(s, nm, Raw, Some(cn)) else DeclareStackObject(s, cn, nm)
  }

  /** A stack object of class `cn` bound to `nm`. */
  function DeclareStackObject(s: Session, cn: string, nm: string): (r: Session)
    requires cn in s.p.classes
    ensures r.p == s.p.(variables := s.p.variables[nm := s.m.nextId])
    ensures r.m == CreateClassObject(s.m, nm, Some(ClassRef(cn, s.p.classes[cn]))).m
    ensures SessionValid(s) ==> SessionValid(r)
  {
    var c := CreateClassObject(s.m, nm, Some(ClassRef(cn, s.p.classes[cn])));
    assert KeepsIds(s.m, c.m);
    VarsSurvive(s.p, s.m, c.m);
    Session(s.p.(variables := s.p.variables[nm := c.v]), c.m)
  }

  /** The block an object declaration adds to a valid registry: a live
      stack block of the class named by the cleaned name, a pointer of
      pointer size when the name is starred and otherwise an object of the
      class's current total size; the old registry is left as it was. */
  lemma DeclareObjectBlock(s: Session, cn: string, tok: string)
    requires cn in s.p.classes && tok != [] && Valid(s.m)
    ensures var r := DeclareObject(s, cn, tok);
      && |r.m.blocks| == |s.m.blocks| + 1
      && r.m.blocks[..|s.m.blocks|] == s.m.blocks
      && var b := r.m.blocks[|s.m.blocks|];
      && b.id == s.m.nextId && b.name == DeclName(tok) && b.mtype == Stack && b.isAllocated
      && b.isObject && b.classKey == Some(cn)
      && b.isPointer == (tok[0] == '*')
      && b.size == (if tok[0] == '*' then POINTER_SIZE else s.p.classes[cn].totalSize)
  {
    ObjectNameIsDeclName(tok);
    if tok[0] == '*' {
      var r := DeclarePointer(s, DeclName(tok), Raw, Some(cn));
      assert r.m.blocks[..|s.m.blocks|] == s.m.blocks;
    }
  }

  /** parseObjectDeclaration.  Fails without a name token or for a type
      that is not a known class; otherwise declares the object. */
  function ParseObjectDeclaration(s: Session, line: string): (r: Step)
    ensures r.ok <==> |Tokenize(line)| >= 2 && IsClassType(s.p, Tokenize(line)[0])
    ensures |Tokenize(line)| < 2 ==> r.s == s.(p := s.p.(lastError := "Invalid object declaration"))
    ensures |Tokenize(line)| >= 2 && !IsClassType(s.p, Tokenize(line)[0]) ==>
      r.s == s.(p := s.p.(lastError := "Unknown class: " + Tokenize(line)[0]))
    ensures r.ok ==> r.s == DeclareObject(s, Tokenize(line)[0], Tokenize(line)[1])
    ensures KeepsIds(s.m, r.s.m)
    ensures SessionValid(s) ==> SessionValid(r.s)
  {
    var ts := Tokenize(line);
    if |ts| < 2 then Fail(s, "Invalid object declaration")
    else if ts[0] !in s.p.classes then Fail(s, "Unknown class: " + ts[0])
    else Pass(DeclareObject(s, ts[0], ts[1]))
  }

  /** parseObjectDeclaration strips the star before the semicolon and
      parseDeclaration the other way round; on a token both give the same
      name and the same pointer verdict. */
  lemma ObjectNameIsDeclName(tok: string)
    requires tok != []
    ensures StripSemicolon(if tok[0] == '*' then tok[1..] else tok) == DeclName(tok)
    ensures tok[0] == '*' <==> Starred(tok)
  {
    var n := StripSemicolon(tok);
    if tok[0] != '*' {
      assert |n| > 0 ==> n[0] == tok[0];
    } else if |tok| == 1 {
      assert n == tok;
    } else if tok[|tok| - 1] == ';' {
      assert n == tok[..|tok| - 1] && n[0] == '*';
      assert n[1..] == tok[1..][..|tok| - 2];
    } else {
      assert n == tok && n[1..] == tok[1..];
    }
  }

  // -----------------------------------------------------------------------
  // new / delete
  // -----------------------------------------------------------------------

  /** The variable exists and names a registered pointer block. */
  predicate IsPointerVar(s: Session, v: string) {
    && v in s.p.variables
    && FindIndex(s.m.blocks, s.p.variables[v]).Some?
    && s.m.blocks[FindIndex(s.m.blocks, s.p.variables[v]).value].isPointer
  }

  /** The index of the block a variable names. */
  function VarIndex(s: Session, v: string): nat
    requires IsPointerVar(s, v)
  {
    FindIndex(s.m.blocks, s.p.variables[v]).value
  }

  /** The type named after `new `: up to a '(' if there is one, else up
      to a ';' if there is one, else all of it; trimmed. */
  function NewTypeName(afterNew: string): string {
    match FindChar(afterNew, '(')
    case Some(k) => Trim(afterNew[..k])
    case None =>
      match FindChar(afterNew, ';')
      case Some(k) => Trim(afterNew[..k])
      case None => Trim(afterNew)
  }

  /** The heap block of `new T`: an object of a known class, else a basic
      block of T's size; always raw, named T + "_heap". */
  function NewHeap(s: Session, typeName: string): (h: Ret<int>)
    ensures Created(s.m, h) && h.m.stackDepth == s.m.stackDepth
    ensures var b := h.m.blocks[|s.m.blocks|];
      && b.mtype == Heap && b.pointerType == Raw && b.refCount == 0 && !b.isPointer
      && b.name == typeName + "_heap" && b.isObject == IsClassType(s.p, typeName)
      && b.size == (if IsClassType(s.p, typeName) then s.p.classes[typeName].totalSize
                    else GetTypeSize(typeName))
    ensures Valid(s.m) ==> Valid(h.m)
  {
    if typeName in s.p.classes then
      AllocateClassObject(s.m, typeName + "_heap", Some(ClassRef(typeName, s.p.classes[typeName])), Raw)
    else
      AllocateHeap(s.m, typeName + "_heap", GetTypeSize(typeName), Raw)
  }

  /** Binding the pointer at a registered id to a block just created
      keeps the session valid, keeps every id, and makes the pointer
      target the new block. */
  lemma BindNew(s: Session, h: Ret<int>, ptrId: int)
    requires Created(s.m, h) && FindIndex(s.m.blocks, ptrId).Some?
    ensures FindIndex(h.m.blocks, ptrId) == FindIndex(s.m.blocks, ptrId)
    ensures var r := AssignPointer(h.m, ptrId, h.v);
      && r.v && KeepsIds(s.m, r.m) && |r.m.blocks| == |h.m.blocks|
      && r.m.blocks[FindIndex(s.m.blocks, ptrId).value].pointsTo == h.v
      && (Valid(h.m) ==> Valid(r.m))
      && (VarsRegistered(s.p, s.m) ==> VarsRegistered(s.p, r.m))
  {
    assert h.m.blocks == s.m.blocks + [h.m.blocks[|s.m.blocks|]];
    FindIndexAppend(s.m.blocks, h.m.blocks[|s.m.blocks|], ptrId);
    var r := AssignPointer(h.m, ptrId, h.v);
    assert KeepsIds(s.m, r.m);
    VarsSurvive(s.p, s.m, r.m);
  }

  /** The effect of a successful `p = new T;`: a raw heap block (see
      NewHeap) under the next id, and the pointer at `ptrId` retargeted
      to it. */
  function AttachNew(s: Session, ptrId: int, tn: string): (r: Session)
    requires FindIndex(s.m.blocks, ptrId).Some?
    ensures r.p == s.p
    ensures r.m.nextId == s.m.nextId + 1 && |r.m.blocks| == |s.m.blocks| + 1
    ensures r.m.blocks[FindIndex(s.m.blocks, ptrId).value].pointsTo == s.m.nextId
    ensures SameIdentity(r.m.blocks[|s.m.blocks|], NewHeap(s, tn).m.blocks[|s.m.blocks|])
    ensures SessionValid(s) ==> SessionValid(r)
    ensures KeepsIds(s.m, r.m)
  {
    var h := NewHeap(s, tn);
    BindNew(s, h, ptrId);
    s.(m := AssignPointer(h.m, ptrId, h.v).m)
  }

  /** parseNew.  Fails, in this order, on a line without '=' or "new ",
      on an unknown variable left of the '=' (the whole trimmed text
      before it, so a declaration such as `int* p` is never a known
      name), and on a variable that is not a pointer; none of these
      touch memory.  Otherwise the effect is AttachNew's. */
  function ParseNew(s: Session, line: string): (r: Step)
    ensures r.s.p == s.p.(lastError := r.s.p.lastError)
    ensures FindChar(line, '=').None? || Find(line, "new ").None? ==> r == Fail(s, "Invalid new statement")
    ensures FindChar(line, '=').Some? && Find(line, "new ").Some? ==>
      var v := Trim(line[..FindChar(line, '=').value]);
      var tn := NewTypeName(Trim(line[Find(line, "new ").value + 4..]));
      && (v !in s.p.variables ==> r == Fail(s, "Undefined variable: " + v))
      && (v in s.p.variables && !IsPointerVar(s, v) ==> r == Fail(s, "Variable is not a pointer: " + v))
      && (IsPointerVar(s, v) ==> r == Pass(AttachNew(s, s.p.variables[v], tn)))
    ensures SessionValid(s) ==> SessionValid(r.s)
    ensures KeepsIds(s.m, r.s.m)
  {
    match (FindChar(line, '='), Find(line, "new "))
    case (Some(eq), Some(np)) =>
      var v := Trim(line[..eq]);
      var tn := NewTypeName(Trim(line[np + 4..]));
      if v !in s.p.variables then Fail(s, "Undefined variable: " + v)
      else
        var ptrId := s.p.variables[v];
        (match FindIndex(s.m.blocks, ptrId)
         case None => Fail(s, "Variable is not a pointer: " + v)
         case Some(i) =>
           if !s.m.blocks[i].isPointer then Fail(s, "Variable is not a pointer: " + v)
           else Pass(AttachNew(s, ptrId, tn)))
    case _ => Fail(s, "Invalid new statement")
  }

  /** parseDelete.  Fails, in this order, without a name token, on an
      unknown variable, on a variable that is not a pointer and on a null
      pointer; none of these touch memory.  Otherwise the pointee is
      deallocated and the pointer set to null: a raw or unique pointer's
      live pointee that is not shared by several owners dies. */
  function ParseDelete(s: Session, line: string): (r: Step)
    ensures r.s.p == s.p.(lastError := r.s.p.lastError)
    ensures !r.ok ==> r.s.m == s.m
    ensures SameShape(s.m, r.s.m)
    ensures |Tokenize(line)| < 2 ==> r == Fail(s, "Invalid delete statement")
    ensures |Tokenize(line)| >= 2 ==>
      var v := StripSemicolon(Tokenize(line)[1]);
      && (v !in s.p.variables ==> r == Fail(s, "Undefined variable: " + v))
      && (v in s.p.variables && !IsPointerVar(s, v) ==> r == Fail(s, "Variable is not a pointer: " + v))
      && (IsPointerVar(s, v) ==>
            var p := s.m.blocks[VarIndex(s, v)];
            && (p.pointsTo == NULL_ID ==> r == Fail(s, "Cannot delete null pointer: " + v))
            && (p.pointsTo != NULL_ID ==>
                  && r.ok && r.s.p == s.p
                  && r.s.m.blocks[VarIndex(s, v)].pointsTo == NULL_ID
                  && (IsLive(s.m, p.pointsTo) && p.pointerType != Shared
                      && !SharedHeld(s.m.blocks[FindIndex(s.m.blocks, p.pointsTo).value])
                      ==> !IsLive(r.s.m, p.pointsTo))))
    ensures SessionValid(s) ==> SessionValid(r.s)
  {
    var ts := Tokenize(line);
    if |ts| < 2 then Fail(s, "Invalid delete statement")
    else
      var v := StripSemicolon(ts[1]);
      if v !in s.p.variables then Fail(s, "Undefined variable: " + v)
      else
        var ptrId := s.p.variables[v];
        match FindIndex(s.m.blocks, ptrId)
        case None => Fail(s, "Variable is not a pointer: " + v)
        case Some(i) =>
          var p := s.m.blocks[i];
          if !p.isPointer then Fail(s, "Variable is not a pointer: " + v)
          else if p.pointsTo == NULL_ID then Fail(s, "Cannot delete null pointer: " + v)
          else
            DeleteEffect(s.m, ptrId);
            var m2 := DeleteAt(s.m, ptrId, p.pointsTo);
            SameShapeKeepsIds(s.m, m2);
            VarsSurvive(s.p, s.m, m2);
            Pass(s.(m := m2))
  }

  /** The memory effect of a successful delete: free the pointee, then
      null the pointer. */
  function DeleteAt(m: Manager, ptrId: int, target: int): (r: Manager)
    ensures SameShape(m, r)
    ensures Valid(m) ==> Valid(r)
  {
    AssignPointer(Deallocate(m, target).m, ptrId, NULL_ID).m
  }

  lemma DeleteEffect(m: Manager, ptrId: int)
    requires FindIndex(m.blocks, ptrId).Some?
    ensures var i := FindIndex(m.blocks, ptrId).value;
      var p := m.blocks[i];
      var r := DeleteAt(m, ptrId, p.pointsTo);
      && r.blocks[i].pointsTo == NULL_ID
      && (IsLive(m, p.pointsTo) && p.pointerType != Shared
          && !SharedHeld(m.blocks[FindIndex(m.blocks, p.pointsTo).value])
          ==> !IsLive(r, p.pointsTo))
  {
    var i := FindIndex(m.blocks, ptrId).value;
    var p := m.blocks[i];
    var m1 := Deallocate(m, p.pointsTo).m;
    var r := AssignPointer(m1, ptrId, NULL_ID).m;
    SameShapeFind(m, m1, ptrId);
    SameShapeFind(m, m1, p.pointsTo);
    SameShapeFind(m1, r, p.pointsTo);
    assert r == AssignAt(m1, i, NULL_ID);
    if IsLive(m, p.pointsTo) && p.pointerType != Shared
       && !SharedHeld(m.blocks[FindIndex(m.blocks, p.pointsTo).value]) {
      var t := FindIndex(m.blocks, p.pointsTo).value;
      assert !m1.blocks[t].isAllocated;
      assert m1.blocks[i].pointerType != Shared;
      assert ReleaseOld(m1, m1.blocks[i]) == m1;
      assert !r.blocks[t].isAllocated;
    }
  }

  // -----------------------------------------------------------------------
  // Smart pointers
  // -----------------------------------------------------------------------

  /** The first index `j >= i` whose token holds '>' and has a token after
      it: the name parseSmartPtr takes is the token after that one. */
  function NameAfterAngle(ts: seq<string>, i: nat): (r: Option<nat>)
    ensures r.Some? ==> i <= r.value && r.value + 1 < |ts| && '>' in ts[r.value]
    ensures r.Some? ==> forall j :: i <= j < r.value ==> '>' !in ts[j]
    ensures r.None? ==> forall j :: i <= j && j + 1 < |ts| ==> '>' !in ts[j]
    decreases |ts| - i
  {
    if i + 1 >= |ts| then None
    else if FindChar(ts[i], '>').Some? then Some(i)
    else NameAfterAngle(ts, i + 1)
  }

  /** parseSmartPtr's variable name: the token after the first '>'-token
      past the type, with a lone "=" replaced by the second token when
      there are more than three tokens, and one semicolon dropped. */
  function SmartVarName(ts: seq<string>): Option<string> {
    match NameAfterAngle(ts, 1)
    case None => None
    case Some(j) =>
      var v := ts[j + 1];
      Some(StripSemicolon(if v == "=" && |ts| > 3 then ts[1] else v))
  }

  /** The pointee type of a make_unique / make_shared line: the text
      between the first '<' and the first '>' after it, trimmed. */
  function MakeType(line: string): (r: Option<string>)
    ensures r.Some? ==> Contains(line, "make_unique") || Contains(line, "make_shared")
  {
    if Find(line, "make_unique").Some? || Find(line, "make_shared").Some? then
      match FindChar(line, '<')
      case None => None
      case Some(lt) =>
        match FindCharFrom(line, '>', lt)
        case None => None
        case Some(gt) => Some(Trim(line[lt + 1..gt]))
    else None
  }

  /** The pointee block of `make_*<T>` for variable `v`: a class object
      or a basic block named v + "_data", with the pointer's discipline. */
  function MakeHeap(s: Session, v: string, tn: string, pt: PointerType): (h: Ret<int>)
    ensures Created(s.m, h) && h.m.stackDepth == s.m.stackDepth
    ensures var b := h.m.blocks[|s.m.blocks|];
      && b.pointerType == pt && b.refCount == (if pt == Shared then 1 else 0) && !b.isPointer
      && (b.mtype == Heap <==> pt == Raw) && (b.mtype == SmartPtr <==> pt != Raw)
      && b.name == v + "_data" && b.isObject == IsClassType(s.p, tn)
      && b.size == (if IsClassType(s.p, tn) then s.p.classes[tn].totalSize else GetTypeSize(tn))
    ensures Valid(s.m) ==> Valid(h.m)
  {
    if tn in s.p.classes then
      AllocateClassObject(s.m, v + "_data", Some(ClassRef(tn, s.p.classes[tn])), pt)
    else
      AllocateHeap(s.m, v + "_data", GetTypeSize(tn), pt)
  }

  /** parseSmartPtr.  Fails with fewer than two tokens, or when no token
      after the type holds '>' with a token after it (so both
      `unique_ptr<int> p;` and `unique_ptr<int> p = make_unique<int>();`
      fail).  Otherwise a null pointer of the discipline the type names
      is declared; on a make_unique / make_shared line with a `<T>` it is
      bound to a new pointee block, which a shared pointer then owns
      twice: once from allocation and once from the binding. */
  function ParseSmartPtr(s: Session, line: string): (r: Step)
    ensures r.s.p.classes == s.p.classes && r.s.p.scopeLevel == s.p.scopeLevel
    ensures r.s.p.inFunction == s.p.inFunction && r.s.p.inClass == s.p.inClass
    ensures |Tokenize(line)| < 2 ==> r == Fail(s, "Invalid smart pointer declaration")
    ensures |Tokenize(line)| >= 2 && SmartVarName(Tokenize(line)).None? ==>
      r == Fail(s, "Cannot extract variable name")
    ensures |Tokenize(line)| >= 2 && SmartVarName(Tokenize(line)).Some? ==>
      var ts := Tokenize(line);
      var v := SmartVarName(ts).value;
      var pt := GetPointerType(ts[0]);
      var n := |s.m.blocks|;
      && r.ok && r.s.p == s.p.(variables := s.p.variables[v := s.m.nextId])
      && (Valid(s.m) ==>
            && |r.s.m.blocks| == n + (if MakeType(line).Some? then 2 else 1)
            && r.s.m.blocks[..n] == s.m.blocks
            && var b := r.s.m.blocks[n];
            && b.id == s.m.nextId && b.name == v && b.isPointer && b.pointerType == pt
            && b.mtype == Stack && b.isAllocated && b.size == POINTER_SIZE
            && (MakeType(line).None? ==> b.pointsTo == NULL_ID)
            && (MakeType(line).Some? ==>
                  && b.pointsTo == s.m.nextId + 1
                  && r.s.m.blocks[n + 1].id == s.m.nextId + 1
                  && r.s.m.blocks[n + 1].isAllocated
                  && r.s.m.blocks[n + 1].pointerType == pt
                  && r.s.m.blocks[n + 1].refCount == (if pt == Shared then 2 else 0)))
    ensures SessionValid(s) ==> SessionValid(r.s)
    ensures KeepsIds(s.m, r.s.m)
  {
    var ts := Tokenize(line);
    if |ts| < 2 then Fail(s, "Invalid smart pointer declaration")
    else match SmartVarName(ts)
      case None => Fail(s, "Cannot extract variable name")
      case Some(v) =>
        var pt := GetPointerType(ts[0]);
        var s1 := DeclarePointer(s, v, pt, None);
        var ptrId := s.m.nextId;
        assert KeepsIds(s.m, s1.m);
        match MakeType(line)
        case None => Pass(s1)
        case Some(tn) =>
          var h := MakeHeap(s1, v, tn, pt);
          SmartBind(s, s1, h, v, pt);
          Pass(s1.(m := AssignPointer(h.m, ptrId, h.v).m))
  }

  /** The binding step of parseSmartPtr keeps every registered id and
      the session invariant. */
  lemma SmartBindValid(s: Session, s1: Session, h: Ret<int>)
    requires KeepsIds(s.m, s1.m) && Created(s1.m, h)
    ensures var r := AssignPointer(h.m, s.m.nextId, h.v).m;
      && KeepsIds(s.m, r)
      && (SessionValid(s1) && Valid(h.m) ==> SessionValid(s1.(m := r)))
  {
    var r := AssignPointer(h.m, s.m.nextId, h.v).m;
    assert h.m.blocks[..|s1.m.blocks|] == s1.m.blocks;
    assert KeepsIds(s1.m, h.m) by {
      forall i | 0 <= i < |s1.m.blocks|
        ensures h.m.blocks[i].id == s1.m.blocks[i].id
      {
        assert h.m.blocks[..|s1.m.blocks|][i] == h.m.blocks[i];
      }
    }
    SameShapeKeepsIds(h.m, r);
    KeepsIdsTransitive(s1.m, h.m, r);
    KeepsIdsTransitive(s.m, s1.m, r);
    if SessionValid(s1) && Valid(h.m) {
      VarsSurvive(s1.p, s1.m, r);
      assert Valid(r);
    }
  }

  /** In a valid registry extended by the pointer `pb` (id nextId) and
      then by `b` (id nextId + 1), the two ids are found at the two new
      places. */
  lemma FindTwoFresh(m: Manager, pb: Block, b: Block)
    requires Valid(m) && pb.id == m.nextId && b.id == m.nextId + 1
    ensures FindIndex(m.blocks + [pb] + [b], m.nextId) == Some(|m.blocks|)
    ensures FindIndex(m.blocks + [pb] + [b], m.nextId + 1) == Some(|m.blocks| + 1)
  {
    FindFresh(m, pb);
    FindIndexAppend(m.blocks + [pb], b, m.nextId);
    var bs := m.blocks + [pb];
    assert forall k :: 0 <= k < |bs| ==> bs[k].id < m.nextId + 1;
    FindIndexAppend(bs, b, m.nextId + 1);
  }

  /** The binding step of parseSmartPtr: the new pointer (last block of
      `s1`) takes the pointee just created, which gains one owner when
      shared. */
  lemma SmartBind(s: Session, s1: Session, h: Ret<int>, v: string, pt: PointerType)
    requires KeepsIds(s.m, s1.m) && s1.m.nextId == s.m.nextId + 1
    requires Valid(s.m) ==> s1.m.blocks == s.m.blocks + [PointerBlock(s.m.nextId, v, pt, None)]
    requires Created(s1.m, h)
    requires var b := h.m.blocks[|s1.m.blocks|];
      b.refCount == (if pt == Shared then 1 else 0) && b.pointerType == pt
    ensures var r := AssignPointer(h.m, s.m.nextId, h.v).m;
      && KeepsIds(s.m, r)
      && (SessionValid(s1) && Valid(h.m) ==> SessionValid(s1.(m := r)))
      && (Valid(s.m) ==>
            && |r.blocks| == |s.m.blocks| + 2
            && r.blocks[..|s.m.blocks|] == s.m.blocks
            && r.blocks[|s.m.blocks|] == PointerBlock(s.m.nextId, v, pt, None).(pointsTo := s.m.nextId + 1)
            && r.blocks[|s.m.blocks| + 1].id == s.m.nextId + 1
            && r.blocks[|s.m.blocks| + 1].isAllocated
            && r.blocks[|s.m.blocks| + 1].pointerType == pt
            && r.blocks[|s.m.blocks| + 1].refCount == (if pt == Shared then 2 else 0))
  {
    SmartBindValid(s, s1, h);
    if Valid(s.m) {
      SmartBindShape(s.m, s1.m, h, PointerBlock(s.m.nextId, v, pt, None));
    }
  }

  /** Binding a null pointer, just pushed, to the block pushed right
      after it leaves the older blocks alone. */
  lemma BindPushedPrefix(m0: Manager, hm: Manager, pb: Block, b: Block)
    requires Valid(m0) && pb.id == m0.nextId && b.id == m0.nextId + 1 && pb.pointsTo == NULL_ID
    requires hm.blocks == m0.blocks + [pb] + [b]
    ensures var r := AssignPointer(hm, m0.nextId, b.id).m;
      && |r.blocks| == |m0.blocks| + 2
      && r.blocks[..|m0.blocks|] == m0.blocks
  {
    var n := |m0.blocks|;
    FindTwoFresh(m0, pb, b);
    var shared := pb.pointerType == Shared;
    AssignFromNull(hm, n, b.id);
    RebindFrame(hm, n, b.id, shared);
    var r := AssignPointer(hm, m0.nextId, b.id).m;
    assert r == Rebind(hm, n, b.id, shared);
    var bump := if shared && b.id != NULL_ID then FindIndex(hm.blocks, b.id) else None;
    forall k | 0 <= k < n
      ensures r.blocks[k] == m0.blocks[k]
    {
      assert bump != Some(k);
      assert hm.blocks[k] == m0.blocks[k];
    }
    assert r.blocks[..n] == m0.blocks;
  }

  /** ... and the pointer targets the block, which gains one owner when
      the pointer is shared. */
  lemma BindPushedPair(m0: Manager, hm: Manager, pb: Block, b: Block)
    requires Valid(m0) && pb.id == m0.nextId && b.id == m0.nextId + 1 && pb.pointsTo == NULL_ID
    requires hm.blocks == m0.blocks + [pb] + [b]
    ensures var r := AssignPointer(hm, m0.nextId, b.id).m;
      && |r.blocks| == |m0.blocks| + 2
      && r.blocks[|m0.blocks|] == pb.(pointsTo := b.id)
      && r.blocks[|m0.blocks| + 1] == b.(refCount := b.refCount + (if pb.pointerType == Shared then 1 else 0))
  {
    var n := |m0.blocks|;
    FindTwoFresh(m0, pb, b);
    var shared := pb.pointerType == Shared;
    assert hm.blocks[n] == pb && hm.blocks[n + 1] == b;
    AssignFromNull(hm, n, b.id);
    RebindFrame(hm, n, b.id, shared);
    var r := AssignPointer(hm, m0.nextId, b.id).m;
    assert r == Rebind(hm, n, b.id, shared);
    if shared {
      assert r.blocks[n + 1] == b.(refCount := b.refCount + 1);
    } else {
      assert r.blocks[n + 1] == b;
    }
  }

  lemma SmartBindShape(m0: Manager, m1: Manager, h: Ret<int>, pb: Block)
    requires Valid(m0) && pb.id == m0.nextId && pb.pointsTo == NULL_ID
    requires m1.blocks == m0.blocks + [pb] && m1.nextId == m0.nextId + 1
    requires Created(m1, h)
    ensures var r := AssignPointer(h.m, m0.nextId, h.v).m;
      var b := h.m.blocks[|m1.blocks|];
      && |r.blocks| == |m0.blocks| + 2
      && r.blocks[..|m0.blocks|] == m0.blocks
      && r.blocks[|m0.blocks|] == pb.(pointsTo := m0.nextId + 1)
      && r.blocks[|m0.blocks| + 1] == b.(refCount := b.refCount + (if pb.pointerType == Shared then 1 else 0))
  {
    var n := |m0.blocks|;
    var b := h.m.blocks[n + 1];
    assert h.m.blocks == m0.blocks + [pb] + [b];
    BindPushedPrefix(m0, h.m, pb, b);
    BindPushedPair(m0, h.m, pb, b);
  }

  // -----------------------------------------------------------------------
  // Assignment
  // -----------------------------------------------------------------------

  /** The right-hand side of `left = right;`: what follows the '=',
      trimmed, with one trailing semicolon dropped and trimmed again. */
  function RightSide(line: string, eq: nat): string
    requires eq < |line|
  {
    var r := Trim(line[eq + 1..]);
    if |r| > 0 && r[|r| - 1] == ';' then Trim(r[..|r| - 1]) else r
  }

  predicate IsNullLiteral(t: string) {
    t == "nullptr" || t == "NULL"
  }

  /** The registry index of the block a right-hand side names, when it is
      a variable bound to a registered block. */
  function RightIndex(s: Session, rhs: string): (r: Option<nat>)
    ensures r.Some? ==> rhs in s.p.variables && r == FindIndex(s.m.blocks, s.p.variables[rhs])
    ensures r.None? ==> rhs !in s.p.variables || FindIndex(s.m.blocks, s.p.variables[rhs]).None?
  {
    if rhs in s.p.variables then FindIndex(s.m.blocks, s.p.variables[rhs]) else None
  }

  /** What an assignment to the registered variable `left`, found at
      index `li`, does with its right-hand side `rhs`.  A null literal
      nulls a pointer and leaves anything else alone.  Between two pointer
      variables: two shared pointers make `left` name a fresh copy of the
      right one (the old block of `left` stays where it was), two unique
      pointers on a line mentioning std::move transfer the pointee, and
      otherwise `left` takes the right pointer's target.  Anything else
      changes nothing. */
  function AssignEffect(s: Session, left: string, li: nat, rhs: string, line: string): (r: Session)
    requires left in s.p.variables && FindIndex(s.m.blocks, s.p.variables[left]) == Some(li)
    ensures KeepsIds(s.m, r.m)
    ensures
      var lb := s.m.blocks[li];
      && (IsNullLiteral(rhs) && !lb.isPointer ==> r == s)
      && (IsNullLiteral(rhs) && lb.isPointer ==> r.p == s.p && r.m.blocks[li].pointsTo == NULL_ID)
      && (!IsNullLiteral(rhs) && (RightIndex(s, rhs).None? || !lb.isPointer) ==> r == s)
    ensures !IsNullLiteral(rhs) && RightIndex(s, rhs).Some? && s.m.blocks[li].isPointer ==>
      var lb := s.m.blocks[li];
      var ri := RightIndex(s, rhs).value;
      var rb := s.m.blocks[ri];
      && (!rb.isPointer ==> r == s)
      && (rb.isPointer && lb.pointerType == Shared && rb.pointerType == Shared && Valid(s.m) ==>
            && r.p == s.p.(variables := s.p.variables[left := s.m.nextId])
            && r.m == CopySharedPtr(s.m, s.p.variables[rhs], left).m
            && r.m.blocks[|s.m.blocks|].pointsTo == rb.pointsTo
            && r.m.blocks[li] == lb.(refCount := r.m.blocks[li].refCount))
      && (rb.isPointer && lb.pointerType == Unique && rb.pointerType == Unique && Contains(line, "std::move") ==>
            && r.p == s.p
            && r.m.blocks[ri].pointsTo == NULL_ID
            && (ri != li ==> r.m.blocks[li].pointsTo == rb.pointsTo))
      && (rb.isPointer && !(lb.pointerType == Shared && rb.pointerType == Shared)
          && !(lb.pointerType == Unique && rb.pointerType == Unique && Contains(line, "std::move")) ==>
            && r.p == s.p
            && r.m.blocks[li].pointsTo == rb.pointsTo)
    ensures r.p == s.p || (r.p == s.p.(variables := s.p.variables[left := s.m.nextId])
                            && HasId(r.m.blocks, s.m.nextId))
    ensures Valid(s.m) ==> Valid(r.m)
  {
    var leftId := s.p.variables[left];
    var lb := s.m.blocks[li];
    if IsNullLiteral(rhs) then
      if lb.isPointer then
        var m2 := AssignPointer(s.m, leftId, NULL_ID).m;
        SameShapeKeepsIds(s.m, m2);
        s.(m := m2)
      else s
    else match RightIndex(s, rhs)
      case None => s
      case Some(ri) =>
        var rightId := s.p.variables[rhs];
        var rb := s.m.blocks[ri];
        if !(lb.isPointer && rb.isPointer) then s
        else if lb.pointerType == Shared && rb.pointerType == Shared then
          CopyInto(s, left, li, rhs)
        else if lb.pointerType == Unique && rb.pointerType == Unique && Find(line, "std::move").Some? then
          var m2 := MoveUniquePtr(s.m, rightId, leftId).m;
          SameShapeKeepsIds(s.m, m2);
          s.(m := m2)
        else
          var m2 := AssignPointer(s.m, leftId, rb.pointsTo).m;
          SameShapeKeepsIds(s.m, m2);
          s.(m := m2)
  }

  /** `left = right;` between two shared pointers: a copy of the right
      pointer under the name `left`, which is rebound to the copy's id
      when the copy succeeds. */
  function CopyInto(s: Session, left: string, li: nat, rhs: string): (r: Session)
    requires li < |s.m.blocks|
    requires rhs in s.p.variables && IsSharedPointerAt(s.m, s.p.variables[rhs])
    ensures KeepsIds(s.m, r.m)
    ensures r.m == CopySharedPtr(s.m, s.p.variables[rhs], left).m
    ensures r.p == s.p || r.p == s.p.(variables := s.p.variables[left := s.m.nextId])
    ensures s.m.nextId != -1 ==> r.p == s.p.(variables := s.p.variables[left := s.m.nextId])
    ensures r.m.blocks[|s.m.blocks|].pointsTo == s.m.blocks[FindIndex(s.m.blocks, s.p.variables[rhs]).value].pointsTo
    ensures |s.m.blocks| < |r.m.blocks| && r.m.blocks[|s.m.blocks|].id == s.m.nextId
    ensures Valid(s.m) ==> Valid(r.m)
    ensures r.m.blocks[li] == s.m.blocks[li].(refCount := r.m.blocks[li].refCount)
  {
    var c := CopySharedPtr(s.m, s.p.variables[rhs], left);
    if c.v != -1 then Session(s.p.(variables := s.p.variables[left := c.v]), c.m) else s.(m := c.m)
  }

  /** parseAssignment.  Without '=' it fails without a message.  An
      unknown left-hand variable, or one whose block is gone from the
      registry, fails with a message and no other change; otherwise the
      call succeeds with AssignEffect's effect. */
  function ParseAssignment(s: Session, line: string): (r: Step)
    ensures FindChar(line, '=').None? ==> r == Step(s, false)
    ensures FindChar(line, '=').Some? ==>
      var eq := FindChar(line, '=').value;
      var left := Trim(line[..eq]);
      && (left !in s.p.variables ==> r == Fail(s, "Undefined variable: " + left))
      && (left in s.p.variables && FindIndex(s.m.blocks, s.p.variables[left]).None? ==>
            r == Fail(s, "Invalid block: " + left))
      && (left in s.p.variables && FindIndex(s.m.blocks, s.p.variables[left]).Some? ==>
            r == Pass(AssignEffect(s, left, FindIndex(s.m.blocks, s.p.variables[left]).value,
                                   RightSide(line, eq), line)))
    ensures r.s.p.classes == s.p.classes && r.s.p.scopeLevel == s.p.scopeLevel
    ensures r.s.p.inFunction == s.p.inFunction && r.s.p.inClass == s.p.inClass
    ensures r.ok ==> r.s.p.lastError == s.p.lastError
    ensures KeepsIds(s.m, r.s.m)
    ensures SessionValid(s) ==> SessionValid(r.s)
  {
    match FindChar(line, '=')
    case None => Step(s, false)
    case Some(eq) =>
      var left := Trim(line[..eq]);
      if left !in s.p.variables then Fail(s, "Undefined variable: " + left)
      else match FindIndex(s.m.blocks, s.p.variables[left])
        case None => Fail(s, "Invalid block: " + left)
        case Some(li) =>
          AssignEffectValid(s, left, li, RightSide(line, eq), line);
          Pass(AssignEffect(s, left, li, RightSide(line, eq), line))
  }

  lemma AssignEffectValid(s: Session, left: string, li: nat, rhs: string, line: string)
    requires left in s.p.variables && FindIndex(s.m.blocks, s.p.variables[left]) == Some(li)
    ensures SessionValid(s) ==> SessionValid(AssignEffect(s, left, li, rhs, line))
  {
    var r := AssignEffect(s, left, li, rhs, line);
    if SessionValid(s) {
      VarsSurvive(s.p, s.m, r.m);
      if r.p != s.p {
        BindRegistered(s.p, r.m, left, s.m.nextId);
      }
    }
  }

  /** Binding a name to a registered id keeps every name registered. */
  lemma BindRegistered(p: Parser, m: Manager, v: string, id: int)
    requires VarsRegistered(p, m) && HasId(m.blocks, id)
    ensures VarsRegistered(p.(variables := p.variables[v := id]), m)
  {
  }

  // -----------------------------------------------------------------------
  // Dispatch
  // -----------------------------------------------------------------------

  /** A line inside a class body: access labels are skipped, "};" ends
      the body, anything else is a member line. */
  function ClassBodyLine(s: Session, t: string): (r: Step)
    ensures r.ok && r.s.m == s.m
    ensures r.s.p.variables == s.p.variables && r.s.p.lastError == s.p.lastError
    ensures r.s.p.scopeLevel == s.p.scopeLevel && r.s.p.inFunction == s.p.inFunction
    ensures SessionValid(s) ==> SessionValid(r.s)
  {
    if StartsWith(t, "public:") || StartsWith(t, "private:") || StartsWith(t, "protected:") then Pass(s)
    else if t == "};" then ParseClassEnd(s)
    else
      ParseClassMemberValid(s, t);
      ParseClassMember(s, t)
  }

  /** `type name = new T;` declares `type name;` first and then runs
      parseNew on the whole line; `name = new T;` runs parseNew alone. */
  function NewLine(s: Session, t: string): (r: Step)
    ensures r.s.p.classes == s.p.classes && r.s.p.scopeLevel == s.p.scopeLevel
    ensures r.s.p.inFunction == s.p.inFunction && r.s.p.inClass == s.p.inClass
    ensures r.ok ==> r.s.p.lastError == s.p.lastError
    ensures KeepsIds(s.m, r.s.m)
    ensures SessionValid(s) ==> SessionValid(r.s)
  {
    var ts := Tokenize(t);
    if |ts| >= 2 && (IsBasicType(ts[0]) || IsClassType(s.p, ts[0])) then DeclareThenNew(s, t)
    else ParseNew(s, t)
  }

  /** The declaration-then-new branch: the text before the first '=' (all
      of it when there is none), trimmed and closed with ';', is declared;
      if that succeeds parseNew runs on the whole line. */
  function DeclareThenNew(s: Session, t: string): (r: Step)
    ensures r.s.p.classes == s.p.classes && r.s.p.scopeLevel == s.p.scopeLevel
    ensures r.s.p.inFunction == s.p.inFunction && r.s.p.inClass == s.p.inClass
    ensures r.ok ==> r.s.p.lastError == s.p.lastError
    ensures KeepsIds(s.m, r.s.m)
    ensures SessionValid(s) ==> SessionValid(r.s)
  {
    var eq := match FindChar(t, '=') case Some(k) => k case None => |t|;
    var d := ParseDeclaration(s, DeclPart(t, eq));
    NewAfter(s, d, t)
  }

  /** parseNew run after a declaration `d` made from session `s`, unless
      the declaration failed. */
  function NewAfter(s: Session, d: Step, t: string): (r: Step)
    requires d.s.p.classes == s.p.classes && d.s.p.scopeLevel == s.p.scopeLevel
    requires d.s.p.inFunction == s.p.inFunction && d.s.p.inClass == s.p.inClass
    requires d.ok ==> d.s.p.lastError == s.p.lastError
    requires KeepsIds(s.m, d.s.m)
    requires SessionValid(s) ==> SessionValid(d.s)
    ensures !d.ok ==> r == d
    ensures d.ok ==> r == ParseNew(d.s, t)
    ensures r.s.p.classes == s.p.classes && r.s.p.scopeLevel == s.p.scopeLevel
    ensures r.s.p.inFunction == s.p.inFunction && r.s.p.inClass == s.p.inClass
    ensures r.ok ==> r.s.p.lastError == s.p.lastError
    ensures KeepsIds(s.m, r.s.m)
    ensures SessionValid(s) ==> SessionValid(r.s)
  {
    if !d.ok then d
    else
      var n := ParseNew(d.s, t);
      KeepsIdsTransitive(s.m, d.s.m, n.s.m);
      n
  }

  /** A line with '=' (and no "==") that is not a new or smart-pointer
      line: an initialised basic declaration, an object declaration, or an
      assignment. */
  function InitOrAssignLine(s: Session, t: string): (r: Step)
    ensures r.s.p.classes == s.p.classes && r.s.p.scopeLevel == s.p.scopeLevel
    ensures r.s.p.inFunction == s.p.inFunction && r.s.p.inClass == s.p.inClass
    ensures r.ok ==> r.s.p.lastError == s.p.lastError
    ensures KeepsIds(s.m, r.s.m)
    ensures SessionValid(s) ==> SessionValid(r.s)
  {
    var ts := Tokenize(t);
    if |ts| >= 3 && IsBasicType(ts[0]) then ParseDeclarationWithInit(s, t)
    else if |ts| >= 2 && IsClassType(s.p, ts[0]) then ParseObjectDeclaration(s, t)
    else ParseAssignment(s, t)
  }

  /** A line with no '=' (or with "=="): a declaration when the first of
      at least two tokens is a basic, pointer or class type; else ignored. */
  function DeclarationLine(s: Session, t: string): (r: Step)
    ensures r.s.p.classes == s.p.classes && r.s.p.scopeLevel == s.p.scopeLevel
    ensures r.s.p.inFunction == s.p.inFunction && r.s.p.inClass == s.p.inClass
    ensures r.ok ==> r.s.p.lastError == s.p.lastError
    ensures KeepsIds(s.m, r.s.m)
    ensures SessionValid(s) ==> SessionValid(r.s)
  {
    var ts := Tokenize(t);
    if |ts| >= 2 && (IsBasicType(ts[0]) || IsPointerType(ts[0])) then ParseDeclaration(s, t)
    else if |ts| >= 2 && IsClassType(s.p, ts[0]) then ParseObjectDeclaration(s, t)
    else Pass(s)
  }

  /** A smart-pointer line mentions one of these four names. */
  predicate MentionsSmartPointer(t: string) {
    Contains(t, "unique_ptr") || Contains(t, "shared_ptr")
    || Contains(t, "make_unique") || Contains(t, "make_shared")
  }

  /** A statement inside a function body. */
  function StatementLine(s: Session, t: string): (r: Step)
    ensures r.s.p.classes == s.p.classes && r.s.p.scopeLevel == s.p.scopeLevel
    ensures r.s.p.inFunction == s.p.inFunction && r.s.p.inClass == s.p.inClass
    ensures r.ok ==> r.s.p.lastError == s.p.lastError
    ensures KeepsIds(s.m, r.s.m)
    ensures SessionValid(s) ==> SessionValid(r.s)
  {
    if StartsWith(t, "delete ") then
      var d := ParseDelete(s, t);
      SameShapeKeepsIds(s.m, d.s.m);
      d
    else if Contains(t, " = new ") then NewLine(s, t)
    else if MentionsSmartPointer(t) then ParseSmartPtr(s, t)
    else if FindChar(t, '=').Some? && !Contains(t, "==") then InitOrAssignLine(s, t)
    else DeclarationLine(s, t)
  }

  /** executeLine.  Blank lines succeed and change nothing.  Class
      headers and class bodies come first, then function headers, return,
      braces; outside a function every other line is ignored. */
  function ExecuteLine(s: Session, line: string): (r: Step)
    ensures Trim(line) == [] ==> r == Pass(s)
    ensures r.ok ==> r.s.p.lastError == s.p.lastError
    ensures KeepsIds(s.m, r.s.m)
    ensures SessionValid(s) ==> SessionValid(r.s)
  {
    var t := Trim(line);
    if t == [] then Pass(s)
    else if StartsWith(t, "class ") then ParseClassDeclaration(s, t)
    else if s.p.inClass then ClassBodyLine(s, t)
    else if Contains(t, "int main") || Contains(t, "void main") then ParseFunctionStart(s, t)
    else if StartsWith(t, "return") then Pass(s)
    else if t == "{" then ParseScopeStart(s)
    else if t == "}" then ParseScopeEnd(s)
    else if !s.p.inFunction then Pass(s)
    else StatementLine(s, t)
  }

  // -----------------------------------------------------------------------
  // Scripts
  // -----------------------------------------------------------------------

  /** The text executeScript prefixes to the message of the failing line
      `n` (counted from one). */
  function LinePrefix(n: nat): string {
    "Line " + NatToString(n) + ": "
  }

  predicate HasLinePrefix(e: string, n: nat) {
    |LinePrefix(n)| <= |e| && e[..|LinePrefix(n)|] == LinePrefix(n)
  }

  /** A script line as executeLine receives it: comments removed, then
      trimmed. */
  function CleanLine(raw: string): string {
    Trim(RemoveComments(raw))
  }

  /** Every line of a script cleaned as executeScript does before looking
      at it. */
  function CleanLines(raw: seq<string>): (r: seq<string>)
    ensures |r| == |raw| && forall k :: 0 <= k < |raw| ==> r[k] == CleanLine(raw[k])
  {
    seq(|raw|, k requires 0 <= k < |raw| => CleanLine(raw[k]))
  }

  /** What the script loop needs of its line handler, and what
      executeLine provides: a successful line keeps the last error, every
      line keeps the registered ids, and a valid session stays valid. */
  ghost predicate SoundHandler(exec: (Session, string) -> Step) {
    forall s: Session, t: string ::
      && (exec(s, t).ok ==> exec(s, t).s.p.lastError == s.p.lastError)
      && KeepsIds(s.m, exec(s, t).s.m)
      && (SessionValid(s) ==> SessionValid(exec(s, t).s))
  }

  lemma ExecuteLineSound()
    ensures SoundHandler(ExecuteLine)
  {
    forall s: Session, t: string
      ensures && (ExecuteLine(s, t).ok ==> ExecuteLine(s, t).s.p.lastError == s.p.lastError)
              && KeepsIds(s.m, ExecuteLine(s, t).s.m)
              && (SessionValid(s) ==> SessionValid(ExecuteLine(s, t).s))
    {
    }
  }

  /** The loop of executeScript from line index `i` on, over lines already
      cleaned and with the line handler `exec` (executeLine in
      executeScript): empty lines are skipped, and the first failing line
      stops the run with its message prefixed by its one-based line
      number. */
  function RunLines(exec: (Session, string) -> Step, s: Session, lines: seq<string>, i: nat): (r: Step)
    requires i <= |lines|
    ensures !r.ok ==> exists n :: i < n <= |lines| && HasLinePrefix(r.s.p.lastError, n)
    decreases |lines| - i
  {
    if i == |lines| then Pass(s)
    else
      var t := lines[i];
      if t == [] then RunLines(exec, s, lines, i + 1)
      else
        var st := exec(s, t);
        if !st.ok then
          var f := Fail(st.s, LinePrefix(i + 1) + st.s.p.lastError);
          assert HasLinePrefix(f.s.p.lastError, i + 1);
          f
        else RunLines(exec, st.s, lines, i + 1)
  }

  /** With a sound handler the whole run is sound: a successful run keeps
      the last error, the registered ids are kept, and a valid session
      stays valid. */
  lemma {:induction false} RunLinesSound(exec: (Session, string) -> Step, s: Session, lines: seq<string>, i: nat)
    requires SoundHandler(exec) && i <= |lines|
    ensures var r := RunLines(exec, s, lines, i);
      && (r.ok ==> r.s.p.lastError == s.p.lastError)
      && KeepsIds(s.m, r.s.m)
      && (SessionValid(s) ==> SessionValid(r.s))
    decreases |lines| - i
  {
    if i < |lines| {
      var t := lines[i];
      if t == [] {
        RunLinesSound(exec, s, lines, i + 1);
      } else {
        var st := exec(s, t);
        if st.ok {
          RunLinesSound(exec, st.s, lines, i + 1);
          KeepsIdsTransitive(s.m, st.s.m, RunLines(exec, st.s, lines, i + 1).s.m);
        }
      }
    }
  }

  /** executeScript: the script split into lines, each run through
      executeLine. */
  function ExecuteScript(s: Session, script: string): (r: Step)
    ensures !r.ok ==> exists n :: 0 < n <= |SplitLines(script)| && HasLinePrefix(r.s.p.lastError, n)
    ensures r.ok ==> r.s.p.lastError == s.p.lastError
    ensures SessionValid(s) ==> SessionValid(r.s)
  {
    ExecuteLineSound();
    var lines := CleanLines(SplitLines(script));
    RunLinesSound(ExecuteLine, s, lines, 0);
    RunLines(ExecuteLine, s, lines, 0)
  }
}
