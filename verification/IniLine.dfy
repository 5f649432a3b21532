/**
 * One line of config.ini, read the way the two patterns of the editor read it, and shown to be
 * exactly the decompositions the patterns describe.
 */
module IniLine {
  import opened Text
  import opened Options

  /** The character classes of the two patterns. */
  datatype CharClass = Space | KeyChar | NotClose {
    predicate Has(c: char) {
      match this
      case Space => IsPatternSpace(c)
      case KeyChar => 'A' <= c <= 'Z' || 'a' <= c <= 'z' || '0' <= c <= '9' || c == '_' || c == '.' || c == '-'
      case NotClose => c != ']'
    }
  }

  predicate All(s: string, chars: CharClass) {
    forall i :: 0 <= i < |s| ==> chars.Has(s[i])
  }

  predicate IsMark(c: char) {
    c == '=' || c == ':'
  }

  /** The longest prefix inside a class, which is what a greedy repetition takes, and what follows it. */
  function Take(s: string, chars: CharClass): (r: (string, string))
    ensures s == r.0 + r.1
    ensures All(r.0, chars)
    ensures r.1 == "" || !chars.Has(r.1[0])
  {
    if s == "" || !chars.Has(s[0]) then ("", s)
    else
      var (taken, rest) := Take(s[1..], chars);
      ([s[0]] + taken, rest)
  }

  lemma {:induction false} TakeUnique(x: string, y: string, chars: CharClass)
    requires All(x, chars) && (y == "" || !chars.Has(y[0]))
    ensures Take(x + y, chars) == (x, y)
  {
    if x == "" {
      assert x + y == y;
    } else {
      assert (x + y)[1..] == x[1..] + y;
      assert [x[0]] + x[1..] == x;
      TakeUnique(x[1..], y, chars);
    }
  }

  // ----- [section] -----

  /** Capture one of `^\s*\[([^\]]+)\]\s*$`. */
  function MatchSection(line: string): Option<string> {
    var (before, bracketed) := Take(line, Space);
    if bracketed == "" || bracketed[0] != '[' then None
    else
      var (name, closed) := Take(bracketed[1..], NotClose);
      if name == "" || closed == "" || !All(closed[1..], Space) then None
      else Some(name)
  }

  ghost predicate IsSectionLine(line: string, before: string, name: string, after: string) {
    && All(before, Space) && All(after, Space)
    && name != "" && ']' !in name
    && line == before + ("[" + (name + ("]" + after)))
  }

  lemma SectionPattern(line: string, name: string)
    ensures MatchSection(line) == Some(name) <==>
            exists before, after :: IsSectionLine(line, before, name, after)
  {
    hide IsSectionLine, Take;
    if MatchSection(line) == Some(name) {
      var before, after := SectionCaptures(line, name);
    }
    if before, after :| IsSectionLine(line, before, name, after) {
      SectionLineMatches(line, before, name, after);
    }
  }

  lemma SectionCaptures(line: string, name: string) returns (before: string, after: string)
    requires MatchSection(line) == Some(name)
    ensures IsSectionLine(line, before, name, after)
  {
    var (indent, bracketed) := Take(line, Space);
    var (_, closed) := Take(bracketed[1..], NotClose);
    assert bracketed == "[" + bracketed[1..];
    assert closed == "]" + closed[1..];
    before, after := indent, closed[1..];
  }

  lemma SectionLineMatches(line: string, before: string, name: string, after: string)
    requires IsSectionLine(line, before, name, after)
    ensures MatchSection(line) == Some(name)
  {
    var closed := "]" + after;
    var bracketed := "[" + (name + closed);
    TakeUnique(before, bracketed, Space);
    assert bracketed[1..] == name + closed;
    TakeUnique(name, closed, NotClose);
    assert closed[1..] == after;
  }

  // ----- key = value -----

  /** The captures of the assignment pattern; the third one is split around its '=' or ':'. */
  datatype Assignment = Assignment(indent: string, key: string, gap: string, mark: char, pad: string, rest: string) {
    /** Everything the editor keeps when it rewrites the value. */
    function Stem(): string {
      indent + (key + (gap + ([mark] + pad)))
    }
  }

  /** Captures of `^(\s*)([A-Za-z0-9_.\-]+)(\s*[=:]\s*)(.*)$`. */
  function MatchAssignment(line: string): Option<Assignment> {
    var (indent, s) := Take(line, Space);
    var (key, t) := Take(s, KeyChar);
    var (gap, u) := Take(t, Space);
    if key == "" || u == "" || !IsMark(u[0]) then None
    else
      var (pad, rest) := Take(u[1..], Space);
      Some(Assignment(indent, key, gap, u[0], pad, rest))
  }

  predicate IsKeyName(key: string) {
    key != "" && All(key, KeyChar)
  }

  predicate WellFormed(m: Assignment) {
    && All(m.indent, Space)
    && IsKeyName(m.key)
    && All(m.gap, Space) && IsMark(m.mark) && All(m.pad, Space)
    && (m.rest == "" || !IsPatternSpace(m.rest[0]))
  }

  predicate IsAssignmentLine(line: string, m: Assignment) {
    WellFormed(m) && line == m.Stem() + m.rest
  }

  lemma AssignmentPattern(line: string, m: Assignment)
    ensures MatchAssignment(line) == Some(m) <==> IsAssignmentLine(line, m)
  {
    if MatchAssignment(line) == Some(m) {
      MatchIsAssignmentLine(line, m);
    }
    if IsAssignmentLine(line, m) {
      AssignmentLineMatches(line, m);
    }
  }

  lemma Regroup(m: Assignment)
    ensures m.Stem() + m.rest == m.indent + (m.key + (m.gap + ([m.mark] + (m.pad + m.rest))))
  {
    assert ([m.mark] + m.pad) + m.rest == [m.mark] + (m.pad + m.rest);
    assert (m.gap + ([m.mark] + m.pad)) + m.rest == m.gap + (([m.mark] + m.pad) + m.rest);
    assert (m.key + (m.gap + ([m.mark] + m.pad))) + m.rest == m.key + ((m.gap + ([m.mark] + m.pad)) + m.rest);
    assert m.Stem() + m.rest == m.indent + ((m.key + (m.gap + ([m.mark] + m.pad))) + m.rest);
  }

  lemma MatchIsAssignmentLine(line: string, m: Assignment)
    requires MatchAssignment(line) == Some(m)
    ensures IsAssignmentLine(line, m)
  {
    var (_, s) := Take(line, Space);
    var (_, t) := Take(s, KeyChar);
    var (_, u) := Take(t, Space);
    assert u == [m.mark] + u[1..];
    Regroup(m);
  }

  lemma AssignmentLineMatches(line: string, m: Assignment)
    requires IsAssignmentLine(line, m)
    ensures MatchAssignment(line) == Some(m)
    ensures Take(line, Space) == (m.indent, m.key + (m.gap + ([m.mark] + (m.pad + m.rest))))
  {
    Regroup(m);
    var u := [m.mark] + (m.pad + m.rest);
    var t := m.gap + u;
    assert !KeyChar.Has(t[0]);
    TakeUnique(m.indent, m.key + t, Space);
    TakeUnique(m.key, t, KeyChar);
    TakeUnique(m.gap, u, Space);
    assert u[1..] == m.pad + m.rest;
    TakeUnique(m.pad, m.rest, Space);
  }

  // ----- what a line does -----

  predicate IsComment(line: string) {
    var t := Trimmed(line);
    t != "" && (t[0] == '#' || t[0] == ';')
  }

  /** What a line does; an assignment also remembers the text before its value. */
  datatype Meaning = Header(section: string) | Assign(stem: string, key: string, value: string) | Other

  /** Header, assignment or neither, in the order the loader tests them. */
  function Read(line: string): Meaning {
    match MatchSection(line)
    case Some(name) => Header(Trimmed(name))
    case None =>
      if IsComment(line) then Other
      else
        match MatchAssignment(line)
        case Some(m) => Assign(m.Stem(), m.key, Trimmed(m.rest))
        case None => Other
  }

  lemma {:induction false} TrimmedHead(s: string)
    requires s != "" && !IsSpace(s[0])
    ensures Trimmed(s) != "" && Trimmed(s)[0] == s[0]
  {
    hide IsSpace;
    if !IsSpace(s[|s| - 1]) {
    } else {
      TrimmedHead(s[..|s| - 1]);
    }
  }

  lemma {:induction false} TrimmedSkip(before: string, s: string)
    requires All(before, Space)
    ensures Trimmed(before + s) == Trimmed(s)
  {
    if before == "" {
      assert before + s == s;
    } else {
      assert IsSpace(before[0]);
      assert (before + s)[1..] == before[1..] + s;
      TrimmedSkip(before[1..], s);
    }
  }

  /** An assignment never looks like a header or a comment, so its captures alone decide it. */
  lemma AssignmentLineReads(line: string, m: Assignment)
    requires IsAssignmentLine(line, m)
    ensures Read(line) == Assign(m.Stem(), m.key, Trimmed(m.rest))
  {
    hide MatchSection, IsComment, MatchAssignment, Trimmed;
    AssignmentLineMatches(line, m);
    var s := m.key + (m.gap + ([m.mark] + (m.pad + m.rest)));
    assert s[0] == m.key[0] && KeyChar.Has(m.key[0]);
    Regroup(m);
    StartsWithKey(line, m.indent, s);
  }

  /** What starts with a key character, after any blanks, is neither a header nor a comment. */
  lemma StartsWithKey(line: string, indent: string, s: string)
    requires Take(line, Space) == (indent, s) && s != "" && KeyChar.Has(s[0])
    ensures MatchSection(line) == None && !IsComment(line)
  {
    hide Take;
    assert line == indent + s && All(indent, Space) by { TakeParts(line, Space); }
    TrimmedSkip(indent, s);
    TrimmedHead(s);
  }

  lemma TakeParts(s: string, chars: CharClass)
    ensures s == Take(s, chars).0 + Take(s, chars).1 && All(Take(s, chars).0, chars)
  {
  }

  /** Putting another value after the stem of an assignment changes the value and nothing else. */
  lemma NewValueReads(line: string, value: string)
    requires Read(line).Assign? && IsTrimmed(value)
    ensures var m := Read(line); Read(m.stem + value) == Assign(m.stem, m.key, value)
  {
    hide MatchSection, IsComment, MatchAssignment, WellFormed, Trimmed;
    var m := MatchAssignment(line).value;
    MatchIsAssignmentLine(line, m);
    AnyRest(m, value);
    AssignmentLineReads(m.Stem() + value, m.(rest := value));
  }

  lemma AnyRest(m: Assignment, value: string)
    requires WellFormed(m) && IsTrimmed(value)
    ensures WellFormed(m.(rest := value)) && m.(rest := value).Stem() == m.Stem()
  {
  }

  function OptionStem(key: string): string {
    key + " = "
  }

  lemma OptionLineReads(key: string, value: string)
    requires IsKeyName(key) && IsTrimmed(value)
    ensures Read(OptionStem(key) + value) == Assign(OptionStem(key), key, value)
  {
    var m := Assignment("", key, " ", '=', " ", value);
    assert " " + (['='] + " ") == " = ";
    assert m.Stem() == OptionStem(key);
    AssignmentLineReads(OptionStem(key) + value, m);
  }

  /** The same line with a value that is not trimmed. */
  lemma OptionLineTrims(key: string, value: string)
    requires IsKeyName(key)
    ensures var r := Read(OptionStem(key) + value); r.Assign? && r.key == key && r.value == Trimmed(value)
  {
    hide Read, Trimmed, IsKeyName;
    var (pad, rest) := Take(value, Space);
    var m := Assignment("", key, " ", '=', " " + pad, rest);
    PaddedStem(key, pad, rest);
    AssignmentLineReads(OptionStem(key) + value, m);
    TrimmedSkip(pad, rest);
  }

  lemma PaddedStem(key: string, pad: string, rest: string)
    ensures Assignment("", key, " ", '=', " " + pad, rest).Stem() + rest == OptionStem(key) + (pad + rest)
  {
    var m := Assignment("", key, " ", '=', " " + pad, rest);
    assert m.Stem() == OptionStem(key) + pad;
  }

  predicate IsHeaderName(name: string) {
    name != "" && IsTrimmed(name) && ']' !in name && NoNewline(name)
  }

  function HeaderLine(name: string): string {
    "[" + name + "]"
  }

  lemma HeaderLineReads(name: string)
    requires IsHeaderName(name)
    ensures Read(HeaderLine(name)) == Header(name)
  {
    assert HeaderLine(name) == "" + ("[" + (name + ("]" + "")));
    SectionLineMatches(HeaderLine(name), "", name, "");
  }

  lemma BlankReads(line: string)
    requires IsBlank(line)
    ensures Read(line) == Other
  {
    hide Trimmed, IsPatternSpace, IsSpace;
    BlankMeansSpaces(line);
    var (indent, s) := Take(line, Space);
    if s != "" {
      assert s[0] == line[|indent|] && s[0] in line;
      SpaceStartsNothing(s[0]);
    }
  }

  lemma SpaceStartsNothing(c: char)
    requires IsSpace(c)
    ensures c != '[' && !KeyChar.Has(c)
  {
  }

  lemma AssignParts(line: string) returns (rest: string)
    requires Read(line).Assign?
    ensures var m := Read(line);
            line == m.stem + rest && m.value == Trimmed(rest) && IsKeyName(m.key) && |m.key| <= |m.stem|
  {
    var m := MatchAssignment(line).value;
    MatchIsAssignmentLine(line, m);
    rest := m.rest;
  }

  lemma PartsOnOneLine(x: string, y: string)
    requires NoNewline(x + y)
    ensures NoNewline(x) && NoNewline(y) && NoNewline(Trimmed(y))
  {
    assert forall c :: c in x ==> c in x + y;
    assert forall c :: c in y ==> c in x + y;
    TrimmedChars(y);
  }

  /** An assignment read from one line has a proper key and a trimmed value on one line. */
  lemma AssignIsClean(line: string)
    requires NoNewline(line) && Read(line).Assign?
    ensures var m := Read(line);
            IsKeyName(m.key) && NoNewline(m.stem) && m.stem != "" && IsTrimmed(m.value) && NoNewline(m.value)
  {
    var rest := AssignParts(line);
    PartsOnOneLine(Read(line).stem, rest);
  }

  // ----- exactly what a line does -----

  /** The line is the key, after blanks, then blanks and an equals sign or a colon, and any rest. */
  predicate IsSpelled(line: string, indent: string, key: string, gap: string, mark: char, rest: string) {
    && All(indent, Space) && All(gap, Space) && key != ""
    && (forall c :: c in key ==> 'A' <= c <= 'Z' || 'a' <= c <= 'z' || '0' <= c <= '9' || c in "_.-")
    && (mark == '=' || mark == ':')
    && line == indent + (key + (gap + ([mark] + rest)))
  }

  lemma KeyIsName(key: string)
    ensures IsKeyName(key) <==>
              key != "" && forall c :: c in key ==> 'A' <= c <= 'Z' || 'a' <= c <= 'z' || '0' <= c <= '9' || c in "_.-"
  {
    if IsKeyName(key) {
      assert forall c :: c in key ==> KeyChar.Has(c);
    }
    if forall c :: c in key ==> 'A' <= c <= 'Z' || 'a' <= c <= 'z' || '0' <= c <= '9' || c in "_.-" {
      forall i | 0 <= i < |key| ensures KeyChar.Has(key[i]) {
        assert key[i] in key;
      }
    }
  }

  lemma SpelledReads(line: string, indent: string, key: string, gap: string, mark: char, rest: string)
    requires IsSpelled(line, indent, key, gap, mark, rest)
    ensures Read(line).Assign? && Read(line).key == key && Read(line).value == Trimmed(rest)
  {
    hide Read, Trimmed, Take, IsKeyName;
    KeyIsName(key);
    var (pad, tail) := Take(rest, Space);
    TakeParts(rest, Space);
    TakeStops(rest);
    var m := Assignment(indent, key, gap, mark, pad, tail);
    Regroup(m);
    AssignmentLineReads(line, m);
    TrimmedSkip(pad, tail);
  }

  lemma TakeStops(s: string)
    ensures Take(s, Space).1 == "" || !IsPatternSpace(Take(s, Space).1[0])
  {
  }

  lemma AssignIsSpelled(line: string) returns (indent: string, gap: string, mark: char, rest: string)
    requires Read(line).Assign?
    ensures IsSpelled(line, indent, Read(line).key, gap, mark, rest) && Read(line).value == Trimmed(rest)
  {
    hide MatchSection, IsComment, MatchAssignment, Trimmed, IsKeyName;
    var m := MatchAssignment(line).value;
    MatchIsAssignmentLine(line, m);
    KeyIsName(m.key);
    Regroup(m);
    TrimmedSkip(m.pad, m.rest);
    indent, gap, mark, rest := m.indent, m.gap, m.mark, m.pad + m.rest;
  }

  /**
   * What a line does: it opens a section if and only if a bracketed name is all there is but blanks, and the
   * section is the name trimmed; it assigns an option if and only if it is a key, a mark and a rest, and the
   * value is the rest trimmed; nothing else does anything.
   */
  lemma ReadsExactly(line: string, section: string, key: string, value: string)
    ensures Read(line) == Header(section) <==>
              exists before, name, after :: IsSectionLine(line, before, name, after) && Trimmed(name) == section
    ensures (Read(line).Assign? && Read(line).key == key && Read(line).value == value) <==>
              exists indent, gap, mark, rest ::
                IsSpelled(line, indent, key, gap, mark, rest) && Trimmed(rest) == value
  {
    hide Trimmed, Read, IsSpelled, IsSectionLine;
    HeaderExactly(line, section);
    AssignExactly(line, key, value);
  }

  lemma HeaderExactly(line: string, s: string)
    ensures Read(line) == Header(s) <==>
              exists before, name, after :: IsSectionLine(line, before, name, after) && Trimmed(name) == s
  {
    hide Trimmed, MatchAssignment, IsComment, IsSectionLine, MatchSection;
    if Read(line) == Header(s) {
      var name := MatchSection(line).value;
      var before, after := SectionCaptures(line, name);
    }
    if before, name, after :| IsSectionLine(line, before, name, after) && Trimmed(name) == s {
      SectionLineMatches(line, before, name, after);
    }
  }

  lemma AssignExactly(line: string, key: string, value: string)
    ensures (Read(line).Assign? && Read(line).key == key && Read(line).value == value) <==>
              exists indent, gap, mark, rest ::
                IsSpelled(line, indent, key, gap, mark, rest) && Trimmed(rest) == value
  {
    hide Trimmed, Read, IsSpelled;
    if Read(line).Assign? && Read(line).key == key && Read(line).value == value {
      var indent, gap, mark, rest := AssignIsSpelled(line);
    }
    if indent, gap, mark, rest :| IsSpelled(line, indent, key, gap, mark, rest) && Trimmed(rest) == value {
      SpelledReads(line, indent, key, gap, mark, rest);
    }
  }
}
