/** The text helpers of ScriptParser.cpp: searching, trimming, tokenizing,
    comment stripping, line splitting and number printing, each with the
    character sets and edge cases of the C++ library call it stands for
    (`std::string::find`, `find_first_not_of`, `operator>>` on a string
    stream, `std::getline`, `std::to_string`). */
module ScriptText {
  import opened Common

  // ---------------------------------------------------------------------
  // Character classes
  // ---------------------------------------------------------------------

  /** The set " \t\n\r" that trim hands to find_first_not_of. */
  predicate IsTrimSpace(c: char) {
    c == ' ' || c == '\t' || c == '\n' || c == '\r'
  }

  /** What `operator>>` skips between tokens: the C `isspace` set, which
      also holds vertical tab and form feed (trim does not strip those). */
  predicate IsStreamSpace(c: char) {
    IsTrimSpace(c) || c == '\U{000B}' || c == '\U{000C}'
  }

  predicate AllTrimSpace(s: string) {
    forall i :: 0 <= i < |s| ==> IsTrimSpace(s[i])
  }

  predicate NoStreamSpace(s: string) {
    forall i :: 0 <= i < |s| ==> !IsStreamSpace(s[i])
  }

  // ---------------------------------------------------------------------
  // Searching (std::string::find); `None` plays the part of npos
  // ---------------------------------------------------------------------

  /** `p` occurs in `s` starting at position `k`. */
  predicate OccursAt(s: string, p: string, k: nat) {
    k + |p| <= |s| && s[k..k + |p|] == p
  }

  /** `find(p, from)`: the first occurrence of `p` at or after `from`. */
  function FindFrom(s: string, p: string, from: nat): (r: Option<nat>)
    ensures r.Some? ==> from <= r.value && OccursAt(s, p, r.value)
    ensures r.Some? ==> forall k :: from <= k < r.value ==> !OccursAt(s, p, k)
    ensures r.None? ==> forall k :: from <= k ==> !OccursAt(s, p, k)
    decreases |s| - from
  {
    if from + |p| > |s| then None
    else if s[from..from + |p|] == p then Some(from)
    else FindFrom(s, p, from + 1)
  }

  function Find(s: string, p: string): Option<nat> {
    FindFrom(s, p, 0)
  }

  predicate Contains(s: string, p: string) {
    Find(s, p).Some?
  }

  /** `find(c, from)` for a single character. */
  function FindCharFrom(s: string, c: char, from: nat): (r: Option<nat>)
    ensures r.Some? ==> from <= r.value < |s| && s[r.value] == c
    ensures r.Some? ==> forall k :: from <= k < r.value ==> s[k] != c
    ensures r.None? ==> forall k :: from <= k < |s| ==> s[k] != c
    decreases |s| - from
  {
    if from >= |s| then None
    else if s[from] == c then Some(from)
    else FindCharFrom(s, c, from + 1)
  }

  function FindChar(s: string, c: char): Option<nat> {
    FindCharFrom(s, c, 0)
  }

  /** `s.find(p) == 0`, the source's way of asking for a prefix. */
  predicate StartsWith(s: string, p: string) {
    Find(s, p) == Some(0)
  }

  lemma StartsWithIsPrefix(s: string, p: string)
    ensures StartsWith(s, p) <==> |p| <= |s| && s[..|p|] == p
  {
    if |p| <= |s| && s[..|p|] == p {
      assert OccursAt(s, p, 0);
    }
  }

  lemma ContainsIffOccurs(s: string, p: string)
    ensures Contains(s, p) <==> exists k: nat :: OccursAt(s, p, k)
  {
  }

  /** A pattern longer than the text never occurs in it. */
  lemma ShortNotContained(s: string, p: string)
    requires |s| < |p|
    ensures !Contains(s, p)
  {
  }

  /** A pattern holding a character the text lacks never occurs in it. */
  lemma AbsentNotContained(s: string, p: string, k: nat)
    requires k < |p| && FindChar(s, p[k]).None?
    ensures !Contains(s, p)
  {
  }

  // ---------------------------------------------------------------------
  // trim
  // ---------------------------------------------------------------------

  /** find_first_not_of(" \t\n\r", from). */
  function FirstNotSpace(s: string, from: nat): (r: Option<nat>)
    ensures r.Some? ==> from <= r.value < |s| && !IsTrimSpace(s[r.value])
    ensures r.Some? ==> forall k :: from <= k < r.value ==> IsTrimSpace(s[k])
    ensures r.None? ==> forall k :: from <= k < |s| ==> IsTrimSpace(s[k])
    decreases |s| - from
  {
    if from >= |s| then None
    else if !IsTrimSpace(s[from]) then Some(from)
    else FirstNotSpace(s, from + 1)
  }

  /** find_last_not_of(" \t\n\r"). */
  function LastNotSpace(s: string): (r: Option<nat>)
    ensures r.Some? ==> r.value < |s| && !IsTrimSpace(s[r.value])
    ensures r.Some? ==> forall k :: r.value < k < |s| ==> IsTrimSpace(s[k])
    ensures r.None? ==> AllTrimSpace(s)
    decreases |s|
  {
    if |s| == 0 then None
    else if !IsTrimSpace(s[|s| - 1]) then Some(|s| - 1)
    else LastNotSpace(s[..|s| - 1])
  }

  /** trim: removes exactly the leading and the trailing run of trim-space;
      what is left is empty or starts and ends with another character. */
  function Trim(s: string): (r: string)
    ensures r == [] <==> AllTrimSpace(s)
    ensures r != [] ==> !IsTrimSpace(r[0]) && !IsTrimSpace(r[|r| - 1])
    ensures exists a: nat :: a + |r| <= |s| && s[a..a + |r|] == r
                          && AllTrimSpace(s[..a]) && AllTrimSpace(s[a + |r|..])
  {
    match FirstNotSpace(s, 0)
    case None =>
      assert s[0..0] == [] && s[0..] == s;
      ""
    case Some(a) =>
      var b := LastNotSpace(s).value;
      assert s[a..a + |s[a..b + 1]|] == s[a..b + 1];
      assert AllTrimSpace(s[..a]);
      assert AllTrimSpace(s[b + 1..]);
      s[a..b + 1]
  }

  /** A string with no trim-space at either end is its own trim. */
  lemma TrimOfTrimmed(t: string)
    requires t != [] ==> !IsTrimSpace(t[0]) && !IsTrimSpace(t[|t| - 1])
    ensures Trim(t) == t
  {
    if t != [] {
      assert FirstNotSpace(t, 0) == Some(0);
      assert LastNotSpace(t) == Some(|t| - 1);
    }
  }

  lemma TrimIdempotent(s: string)
    ensures Trim(Trim(s)) == Trim(s)
  {
    TrimOfTrimmed(Trim(s));
  }

  // ---------------------------------------------------------------------
  // tokenize: `while (stream >> token)`
  // ---------------------------------------------------------------------

  /** The end of the token that starts at `i`. */
  function TokenEnd(s: string, i: nat): (k: nat)
    requires i <= |s|
    ensures i <= k <= |s|
    ensures forall j :: i <= j < k ==> !IsStreamSpace(s[j])
    ensures k < |s| ==> IsStreamSpace(s[k])
    decreases |s| - i
  {
    if i == |s| || IsStreamSpace(s[i]) then i else TokenEnd(s, i + 1)
  }

  function Tokenize(s: string): (ts: seq<string>)
    ensures forall i :: 0 <= i < |ts| ==> IsWord(ts[i])
    decreases |s|
  {
    if s == [] then []
    else if IsStreamSpace(s[0]) then Tokenize(s[1..])
    else
      var k := TokenEnd(s, 0);
      [s[..k]] + Tokenize(s[k..])
  }

  /** Words joined by single spaces: the inverse of Tokenize. */
  function JoinWords(ts: seq<string>): string
    decreases |ts|
  {
    if |ts| == 0 then ""
    else if |ts| == 1 then ts[0]
    else ts[0] + " " + JoinWords(ts[1..])
  }

  predicate IsWord(t: string) {
    t != [] && NoStreamSpace(t)
  }

  /** Tokenize undoes JoinWords: tokens are exactly the maximal runs of
      non-space characters. */
  lemma {:induction false} TokenizeJoinWords(ts: seq<string>)
    requires forall i :: 0 <= i < |ts| ==> IsWord(ts[i])
    ensures Tokenize(JoinWords(ts)) == ts
    decreases |ts|
  {
    if |ts| == 1 {
      var t := ts[0];
      assert TokenEnd(t, 0) == |t|;
      assert t[..|t|] == t && t[|t|..] == [];
    } else if |ts| > 1 {
      var t := ts[0];
      var rest := JoinWords(ts[1..]);
      var s := t + " " + rest;
      assert s == JoinWords(ts);
      assert s[|t|] == ' ';
      var k := TokenEnd(s, 0);
      assert forall j :: 0 <= j < |t| ==> s[j] == t[j];
      assert k == |t|;
      assert s[..k] == t;
      assert s[k..] == " " + rest;
      assert (" " + rest)[1..] == rest;
      TokenizeJoinWords(ts[1..]);
      assert Tokenize(s) == [t] + Tokenize(" " + rest);
    }
  }

  // ---------------------------------------------------------------------
  // removeComments
  // ---------------------------------------------------------------------

  // Cuts at the first line-comment marker, then splices out the span from
  // the first block-comment opener to the end of the first block-comment
  // closer (one pass, in that order, whichever comes first in the line).
  function RemoveComments(line: string): (r: string)
    ensures !Contains(line, "//") && !Contains(line, "/*") ==> r == line
  {
    SpliceBlockComment(CutLineComment(line))
  }

  /** The text before the first "//", or all of it. */
  function CutLineComment(line: string): (r: string)
    ensures !Contains(line, "//") ==> r == line
    ensures |r| <= |line| && r == line[..|r|]
    ensures Contains(line, "//") ==>
      OccursAt(line, "//", |r|) && forall k :: 0 <= k < |r| ==> !OccursAt(line, "//", k)
  {
    match Find(line, "//") case Some(k) => line[..k] case None => line
  }

  /** The text with the span from the first "/*" to just past the first
      "*/" removed, when both occur. */
  function SpliceBlockComment(a: string): (r: string)
    ensures !Contains(a, "/*") ==> r == a
  {
    match (Find(a, "/*"), Find(a, "*/"))
    case (Some(st), Some(en)) => a[..st] + a[en + 2..]
    case _ => a
  }

  /** Adjacent slashes, stated character by character. */
  predicate NoDoubleSlash(x: string) {
    forall j :: 0 <= j < |x| - 1 ==> !(x[j] == '/' && x[j + 1] == '/')
  }

  lemma DoubleSlashAt(x: string, j: nat)
    ensures OccursAt(x, "//", j) <==> j + 1 < |x| && x[j] == '/' && x[j + 1] == '/'
  {
    if j + 1 < |x| {
      assert x[j..j + 2] == [x[j], x[j + 1]];
    }
  }

  lemma NoDoubleSlashIsNotContains(x: string)
    ensures NoDoubleSlash(x) <==> !Contains(x, "//")
  {
    forall j: nat {
      DoubleSlashAt(x, j);
    }
    match Find(x, "//")
    case Some(k) =>
      assert x[k] == '/' && x[k + 1] == '/';
    case None =>
      assert forall j :: 0 <= j < |x| - 1 ==> !OccursAt(x, "//", j);
  }

  /** Cutting at the first "//" leaves none behind. */
  lemma CutAtLineComment(line: string)
    ensures NoDoubleSlash(CutLineComment(line))
  {
    forall j: nat {
      DoubleSlashAt(line, j);
    }
    NoDoubleSlashIsNotContains(line);
  }

  // Splicing out a span that starts at a block-comment opener cannot
  // create "//": the character before the opener is not a slash.
  lemma SpliceKeepsNoDoubleSlash(a: string, st: nat, en: nat)
    requires NoDoubleSlash(a)
    requires st + 1 < |a| && a[st] == '/' && en + 2 <= |a|
    ensures NoDoubleSlash(a[..st] + a[en + 2..])
  {
    var r := a[..st] + a[en + 2..];
    forall j | 0 <= j < |r| - 1
      ensures !(r[j] == '/' && r[j + 1] == '/')
    {
      if j + 1 < st {
        assert r[j] == a[j] && r[j + 1] == a[j + 1];
      } else if j >= st {
        var i := en + 2 + (j - st);
        assert r[j] == a[i] && r[j + 1] == a[i + 1];
      } else {
        assert r[j] == a[st - 1];
        assert a[st - 1] != '/';
      }
    }
  }

  /** Splicing out a block comment creates no "//". */
  lemma SpliceKeepsNoLineComment(a: string)
    requires NoDoubleSlash(a)
    ensures NoDoubleSlash(SpliceBlockComment(a))
  {
    match (Find(a, "/*"), Find(a, "*/"))
    case (Some(st), Some(en)) =>
      assert a[st] == '/' by { assert a[st..st + 2][0] == a[st]; }
      SpliceKeepsNoDoubleSlash(a, st, en);
    case _ =>
  }

  /** No line comment survives comment removal. */
  lemma RemoveCommentsLeavesNoLineComment(line: string)
    ensures !Contains(RemoveComments(line), "//")
  {
    CutAtLineComment(line);
    SpliceKeepsNoLineComment(CutLineComment(line));
    NoDoubleSlashIsNotContains(RemoveComments(line));
  }

  // ---------------------------------------------------------------------
  // splitIntoLines: `while (std::getline(stream, line))`
  // ---------------------------------------------------------------------

  /** Pieces between newlines; a final empty piece (input ending in a
      newline, or empty input) yields no line, as getline does. */
  function SplitLines(s: string): (ls: seq<string>)
    ensures forall i :: 0 <= i < |ls| ==> '\n' !in ls[i]
    ensures s != [] ==> ls != []
    decreases |s|
  {
    if s == [] then []
    else match FindChar(s, '\n')
      case None => [s]
      case Some(k) => [s[..k]] + SplitLines(s[k + 1..])
  }

  function JoinLines(ls: seq<string>): string
    decreases |ls|
  {
    if |ls| == 0 then ""
    else if |ls| == 1 then ls[0]
    else ls[0] + "\n" + JoinLines(ls[1..])
  }

  lemma JoinLinesCons(a: string, tail: seq<string>)
    requires tail != []
    ensures JoinLines([a] + tail) == a + "\n" + JoinLines(tail)
  {
    assert ([a] + tail)[1..] == tail;
  }

  /** What getline swallows at the end of a text: one trailing newline. */
  function TrailingNewline(s: string): string
    requires s != []
  {
    if s[|s| - 1] == '\n' then "\n" else ""
  }

  /** One step of SplitLinesJoin: the first line, a newline, then the
      rest, which rejoins by hypothesis. */
  lemma SplitLinesJoinStep(s: string, k: nat, tail: seq<string>)
    requires k + 1 < |s| && s[k] == '\n' && tail != []
    requires JoinLines(tail) + TrailingNewline(s[k + 1..]) == s[k + 1..]
    ensures JoinLines([s[..k]] + tail) + TrailingNewline(s) == s
  {
    var rest := s[k + 1..];
    var head := s[..k] + "\n";
    var e := TrailingNewline(s);
    JoinLinesCons(s[..k], tail);
    assert e == TrailingNewline(rest);
    assert s[..k + 1] == head;
    assert s == head + rest;
    ConcatAssoc(head, JoinLines(tail), e);
  }

  lemma ConcatAssoc(a: string, b: string, c: string)
    ensures (a + b) + c == a + (b + c)
  {
  }

  /** Joining the lines back with newlines restores the text, up to the
      one trailing newline that getline swallows. */
  lemma {:induction false} SplitLinesJoin(s: string)
    requires s != []
    ensures JoinLines(SplitLines(s)) + TrailingNewline(s) == s
    decreases |s|
  {
    match FindChar(s, '\n')
    case None =>
      assert SplitLines(s) == [s];
      assert s[|s| - 1] != '\n';
    case Some(k) =>
      if k + 1 == |s| {
        assert SplitLines(s) == [s[..k]] + SplitLines([]);
        assert s == s[..k] + "\n";
      } else {
        SplitLinesJoin(s[k + 1..]);
        assert SplitLines(s) == [s[..k]] + SplitLines(s[k + 1..]);
        SplitLinesJoinStep(s, k, SplitLines(s[k + 1..]));
      }
  }

  // ---------------------------------------------------------------------
  // std::to_string for a line number
  // ---------------------------------------------------------------------

  predicate IsDigit(c: char) {
    '0' <= c <= '9'
  }

  function DigitChar(d: nat): (c: char)
    requires d < 10
    ensures IsDigit(c)
  {
    ('0' as int + d) as char
  }

  function DigitValue(c: char): nat
    requires IsDigit(c)
  {
    (c as int - '0' as int) as nat
  }

  function NatToString(n: nat): (r: string)
    ensures r != [] && forall i :: 0 <= i < |r| ==> IsDigit(r[i])
    decreases n
  {
    if n < 10 then [DigitChar(n)] else NatToString(n / 10) + [DigitChar(n % 10)]
  }

  function ParseDigits(s: string): nat
    requires forall i :: 0 <= i < |s| ==> IsDigit(s[i])
    decreases |s|
  {
    if s == [] then 0 else ParseDigits(s[..|s| - 1]) * 10 + DigitValue(s[|s| - 1])
  }

  /** Reading the digits back gives the number: line numbers are printed
      unambiguously. */
  lemma {:induction false} NatToStringRoundTrip(n: nat)
    ensures ParseDigits(NatToString(n)) == n
    decreases n
  {
    if n >= 10 {
      NatToStringRoundTrip(n / 10);
      var r := NatToString(n);
      assert r[..|r| - 1] == NatToString(n / 10);
    }
  }
}
