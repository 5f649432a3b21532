/** Text primitives the configuration code relies on: trimming, splitting into lines and joining. */
module Text {
  /** `\s` of the patterns (ASCII only, since they are compiled without Unicode properties). */
  predicate IsPatternSpace(c: char) {
    9 <= c as int <= 13 || c == ' '
  }

  /** Space as QString::trimmed sees it, a superset of `\s`. */
  predicate IsSpace(c: char) {
    var n := c as int;
    || IsPatternSpace(c)
    || n == 0x85 || n == 0xA0 || n == 0x1680 || 0x2000 <= n <= 0x200A
    || n == 0x2028 || n == 0x2029 || n == 0x202F || n == 0x205F || n == 0x3000
  }

  predicate NoNewline(s: string) {
    '\n' !in s
  }

  predicate AllNoNewline(lines: seq<string>) {
    forall i :: 0 <= i < |lines| ==> NoNewline(lines[i])
  }

  predicate IsTrimmed(s: string) {
    s != "" ==> !IsSpace(s[0]) && !IsSpace(s[|s| - 1])
  }

  function Trimmed(s: string): (r: string)
    ensures |r| <= |s|
    ensures IsTrimmed(r)
    ensures r == s <==> IsTrimmed(s)
  {
    if s == "" then s
    else if IsSpace(s[0]) then Trimmed(s[1..])
    else if IsSpace(s[|s| - 1]) then Trimmed(s[..|s| - 1])
    else s
  }

  lemma TrimmedChars(s: string)
    ensures forall c :: c in Trimmed(s) ==> c in s
  {
  }

  predicate IsBlank(s: string) {
    Trimmed(s) == ""
  }

  lemma {:induction false} BlankMeansSpaces(s: string)
    ensures IsBlank(s) <==> forall c :: c in s ==> IsSpace(c)
  {
    if s == "" {
    } else if IsSpace(s[0]) {
      BlankMeansSpaces(s[1..]);
      assert s == [s[0]] + s[1..];
    } else {
      assert s[0] in s;
      if IsSpace(s[|s| - 1]) {
        assert s[..|s| - 1][0] == s[0];
        BlankMeansSpaces(s[..|s| - 1]);
        assert s[0] in s[..|s| - 1];
      }
    }
  }

  // ----- lines -----

  /** The pieces between newlines; always at least one, as with QString::split. */
  function Split(s: string): (r: seq<string>)
    ensures |r| >= 1
    ensures AllNoNewline(r)
  {
    if s == "" then [""]
    else
      var rest := Split(s[1..]);
      if s[0] == '\n' then [""] + rest
      else [[s[0]] + rest[0]] + rest[1..]
  }

  function Join(lines: seq<string>): string {
    if lines == [] then ""
    else if |lines| == 1 then lines[0]
    else lines[0] + "\n" + Join(lines[1..])
  }

  lemma JoinPrefix(prefix: string, lines: seq<string>)
    requires lines != []
    ensures Join([prefix + lines[0]] + lines[1..]) == prefix + Join(lines)
  {
    var longer := [prefix + lines[0]] + lines[1..];
    assert longer[1..] == lines[1..];
    if |lines| > 1 {
      assert (prefix + lines[0]) + "\n" + Join(lines[1..]) == prefix + (lines[0] + "\n" + Join(lines[1..]));
    }
  }

  lemma {:induction false} JoinSplit(s: string)
    ensures Join(Split(s)) == s
  {
    if s == "" {
    } else {
      JoinSplit(s[1..]);
      var rest := Split(s[1..]);
      if s[0] == '\n' {
        assert ([""] + rest)[1..] == rest;
        assert "" + "\n" + Join(rest) == s;
      } else {
        JoinPrefix([s[0]], rest);
        assert s == [s[0]] + s[1..];
      }
    }
  }

  lemma {:induction false} SplitPrefix(line: string, s: string)
    requires NoNewline(line)
    ensures Split(line + s) == [line + Split(s)[0]] + Split(s)[1..]
  {
    if line == "" {
      assert line + s == s;
      assert "" + Split(s)[0] == Split(s)[0];
      assert Split(s) == [Split(s)[0]] + Split(s)[1..];
    } else {
      SplitPrefix(line[1..], s);
      assert line[0] in line;
      assert (line + s)[1..] == line[1..] + s;
      assert [line[0]] + (line[1..] + Split(s)[0]) == line + Split(s)[0];
    }
  }

  lemma {:induction false} SplitJoin(lines: seq<string>)
    requires lines != [] && AllNoNewline(lines)
    ensures Split(Join(lines)) == lines
  {
    if |lines| == 1 {
      SplitPrefix(lines[0], "");
      assert lines[0] + "" == lines[0];
    } else {
      var tail := "\n" + Join(lines[1..]);
      SplitJoin(lines[1..]);
      assert tail[1..] == Join(lines[1..]);
      SplitPrefix(lines[0], tail);
      assert Join(lines) == lines[0] + tail;
      assert Split(tail) == [""] + lines[1..];
      assert lines[0] + "" == lines[0];
    }
  }

  lemma {:induction false} SplitSnocNewline(s: string)
    ensures Split(s + "\n") == Split(s) + [""]
  {
    if s == "" {
      assert s + "\n" == "\n";
      assert "\n"[1..] == "";
    } else {
      SplitSnocNewline(s[1..]);
      assert (s + "\n")[1..] == s[1..] + "\n";
    }
  }

  predicate EndsWithNewline(contents: string) {
    contents == "" || contents[|contents| - 1] == '\n'
  }

  /** The lines of a file; a final newline ends the last line instead of opening another. */
  function Lines(contents: string): (r: seq<string>)
    ensures AllNoNewline(r)
  {
    var raw := Split(contents);
    if EndsWithNewline(contents) then raw[..|raw| - 1] else raw
  }

  /** The text written for lines: no newline is added to an empty text. */
  function Unlines(lines: seq<string>, newlineAtEnd: bool): string {
    var text := Join(lines);
    if newlineAtEnd && text != "" then text + "\n" else text
  }

  lemma UnlinesOfLines(contents: string)
    ensures Unlines(Lines(contents), EndsWithNewline(contents)) == if contents == "\n" then "" else contents
  {
    if contents == "" {
      assert Lines(contents) == [];
    } else if EndsWithNewline(contents) {
      var text := contents[..|contents| - 1];
      assert contents == text + "\n";
      SplitSnocNewline(text);
      assert Lines(contents) == Split(text);
      JoinSplit(text);
      assert text == "" <==> contents == "\n";
    } else {
      JoinSplit(contents);
    }
  }

  lemma LastOfConcat(a: string, b: string)
    requires b != ""
    ensures (a + b)[|a + b| - 1] == b[|b| - 1]
  {
  }

  lemma {:induction false} JoinLast(lines: seq<string>)
    requires lines != [] && lines[|lines| - 1] != ""
    ensures Join(lines) != ""
    ensures Join(lines)[|Join(lines)| - 1] == lines[|lines| - 1][|lines[|lines| - 1]| - 1]
  {
    if |lines| == 1 {
    } else {
      var rest := lines[1..];
      JoinLast(rest);
      assert rest[|rest| - 1] == lines[|lines| - 1];
      LastOfConcat(lines[0] + "\n", Join(rest));
      assert Join(lines) == lines[0] + "\n" + Join(rest);
    }
  }

  /** Reading back what was written returns the lines; only a lone empty line is dropped. */
  lemma LinesOfUnlines(lines: seq<string>, newlineAtEnd: bool)
    requires AllNoNewline(lines)
    requires newlineAtEnd || (lines != [] && lines[|lines| - 1] != "")
    ensures Lines(Unlines(lines, newlineAtEnd)) == if lines == [""] then [] else lines
    ensures lines != [] && lines != [""] ==> EndsWithNewline(Unlines(lines, newlineAtEnd)) == newlineAtEnd
  {
    if lines == [] || lines == [""] {
      assert Join(lines) == "";
    } else {
      SplitJoin(lines);
      var text := Join(lines);
      if |lines| >= 2 {
        assert '\n' in text;
      }
      if newlineAtEnd {
        SplitSnocNewline(text);
      } else {
        JoinLast(lines);
        var last := lines[|lines| - 1];
        assert last[|last| - 1] in last;
      }
    }
  }
}
