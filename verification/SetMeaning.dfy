/** What the file the `set` command writes means, line by line, for any request it accepts. */
module SetMeaning {
  import opened Text
  import opened IniLine
  import opened IniSpec
  import opened ConfigSet
  import opened Options
  import P = IniPatch
  import T = IniTheorem

  /** Every name and value is one line. */
  ghost predicate OneLiners(names: seq<string>, updates: map<string, string>) {
    forall n :: n in names ==> NoNewline(n) && n in updates && NoNewline(updates[n])
  }

  /** The names are keys the pattern knows, besides. */
  ghost predicate Proper(names: seq<string>, updates: map<string, string>) {
    forall n :: n in names ==> IsKeyName(n) && n in updates && NoNewline(updates[n])
  }

  // ----- the entries `set` writes -----

  function SetEntry(e: Entry, names: seq<string>, updates: map<string, string>): Entry
    requires forall n :: n in names ==> n in updates
  {
    match OptionName(e.text, names)
    case None => e
    case Some(n) => LineEntry(OptionStem(n) + updates[n])
  }

  function LineEntry(line: string): Entry {
    Entry(line, Read(line))
  }

  /** A clean value is the one the editor would write. */
  lemma CleanLineEntry(key: string, value: string)
    requires IsKeyName(key) && IsTrimmed(value)
    ensures LineEntry(OptionStem(key) + value) == Added(key, value)
  {
    hide Read, IsKeyName;
    OptionLineReads(key, value);
  }

  /** What a rewritten entry does: the value is read without the white space around it. */
  lemma SetEntryReads(e: Entry, names: seq<string>, updates: map<string, string>)
    requires Proper(names, updates) && OptionName(e.text, names).Some?
    ensures var n, m := OptionName(e.text, names).value, SetEntry(e, names, updates).meaning;
            m.Assign? && m.key == n && m.value == Trimmed(updates[n])
  {
    hide Read, IsKeyName;
    OptionLineTrims(OptionName(e.text, names).value, updates[OptionName(e.text, names).value]);
  }

  function SetEntries(doc: seq<Entry>, names: seq<string>, updates: map<string, string>): (r: seq<Entry>)
    requires forall n :: n in names ==> n in updates
    ensures |r| == |doc|
  {
    seq(|doc|, i requires 0 <= i < |doc| => SetEntry(doc[i], names, updates))
  }

  // ----- the lines that decide an option -----

  /** The key, followed by a space, starts the line: the lines the script rewrites. */
  predicate IsSpaced(e: Entry, key: string) {
    key + " " <= e.text
  }

  /** Entry i lies in the section and is rewritten for the key or assigns it. */
  predicate Touches(doc: seq<Entry>, i: nat, section: string, key: string)
    requires i < |doc|
  {
    && SectionAfter("", doc[..i]) == section
    && (IsSpaced(doc[i], key) || (doc[i].meaning.Assign? && doc[i].meaning.key == key))
  }

  /** The last of the first n entries that touches the option, or -1. */
  function LastLine(doc: seq<Entry>, section: string, key: string, n: nat): (r: int)
    requires n <= |doc|
    ensures -1 <= r < n
    ensures r >= 0 ==> Touches(doc, r, section, key)
    ensures forall i :: r < i < n ==> !Touches(doc, i, section, key)
  {
    if n == 0 then -1
    else if Touches(doc, n - 1, section, key) then n - 1
    else LastLine(doc, section, key, n - 1)
  }

  /** The value those entries leave in the written file. */
  function Left(doc: seq<Entry>, updates: map<string, string>, section: string, key: string, n: nat): Option<string>
    requires n <= |doc| && key in updates
  {
    var i := LastLine(doc, section, key, n);
    if i < 0 then None else if IsSpaced(doc[i], key) then Some(Trimmed(updates[key])) else Some(doc[i].meaning.value)
  }

  function Get(values: map<string, string>, k: string): Option<string> {
    if k in values then Some(values[k]) else None
  }

  // ----- keys -----

  lemma KeyHasNoSlash(key: string)
    requires IsKeyName(key)
    ensures '/' !in key && ' ' !in key
  {
    assert forall c :: c in key ==> KeyChar.Has(c);
  }

  lemma MapKeyChars(section: string, key: string)
    ensures forall i :: |section| < i < |MapKey(section, key)| ==> MapKey(section, key)[i] == key[i - |section| - 1]
  {
  }

  lemma SlashIsNotInKey(section: string, key: string, i: nat)
    requires '/' !in key && i < |MapKey(section, key)| && MapKey(section, key)[i] == '/'
    ensures i <= |section|
  {
    MapKeyChars(section, key);
  }

  lemma MapKeyInjective(a: string, m: string, b: string, n: string)
    requires '/' !in m && '/' !in n && MapKey(a, m) == MapKey(b, n)
    ensures a == b && m == n
  {
    var k := MapKey(a, m);
    assert k[|a|] == '/' && k[|b|] == '/';
    assert k[..|a|] == a && k[|a| + 1..] == m;
    assert k[..|b|] == b && k[|b| + 1..] == n;
    SlashIsNotInKey(a, m, |b|);
    SlashIsNotInKey(b, n, |a|);
  }

  lemma KeyChars(key: string, line: string)
    requires IsKeyName(key) && key + " " <= line
    ensures forall i :: 0 <= i < |key| ==> line[i] == key[i] && line[i] != ' '
  {
    assert forall i :: 0 <= i < |key| ==> line[i] == (key + " ")[i] == key[i] && KeyChar.Has(key[i]);
  }

  lemma SpaceIsNotInKey(key: string, line: string, i: nat)
    requires IsKeyName(key) && key + " " <= line && i < |line| && line[i] == ' '
    ensures i >= |key|
  {
    KeyChars(key, line);
  }

  lemma SamePrefix(a: string, b: string, line: string)
    requires IsKeyName(a) && IsKeyName(b) && a + " " <= line && b + " " <= line
    ensures a == b
  {
    assert line[|a|] == (a + " ")[|a|] == ' ' && line[|b|] == (b + " ")[|b|] == ' ';
    assert line[..|a|] == a && line[..|b|] == b;
    SpaceIsNotInKey(a, line, |b|);
    SpaceIsNotInKey(b, line, |a|);
  }

  lemma NameOfSpacedLine(e: Entry, names: seq<string>, updates: map<string, string>, key: string)
    requires Proper(names, updates) && key in names
    ensures OptionName(e.text, names) == Some(key) <==> IsSpaced(e, key)
  {
    hide IsKeyName;
    if IsSpaced(e, key) {
      var n := OptionName(e.text, names).value;
      SamePrefix(key, n, e.text);
    }
  }

  /** A line that starts with a key and a space opens no section, and what it assigns is that key. */
  lemma SpacedLineReads(e: Entry, key: string)
    requires T.Sound(e) && IsKeyName(key) && IsSpaced(e, key)
    ensures !e.meaning.Header?
    ensures e.meaning.Assign? ==> e.meaning.key == key
  {
    hide IsComment, Trimmed, MatchSection, IsKeyName;
    var line, rest := e.text, e.text[|key|..];
    SpacedLineParts(line, key, rest);
    StartsWithKey(line, "", line);
  }

  lemma SpacedLineParts(line: string, key: string, rest: string)
    requires IsKeyName(key) && key + " " <= line && rest == line[|key|..]
    ensures line != "" && KeyChar.Has(line[0])
    ensures Take(line, Space) == ("", line) && Take(line, KeyChar) == (key, rest)
  {
    hide Take;
    assert line == key + rest && rest[0] == (key + " ")[|key|] == ' ';
    assert line[0] == key[0] && KeyChar.Has(key[0]);
    assert line == "" + line;
    TakeUnique("", line, Space);
    TakeUnique(key, rest, KeyChar);
  }

  // ----- the meaning of the written entries -----

  lemma {:induction false} SectionsStay(doc: seq<Entry>, names: seq<string>, updates: map<string, string>, n: nat)
    requires T.AllSound(doc) && Proper(names, updates) && n <= |doc|
    ensures SectionAfter("", SetEntries(doc, names, updates)[..n]) == SectionAfter("", doc[..n])
  {
    hide IsKeyName, ValuesOf, T.Sound;
    if n == 0 {
    } else {
      var w, i := SetEntries(doc, names, updates), n - 1;
      SectionsStay(doc, names, updates, i);
      P.Step(doc, i);
      P.Step(w, i);
      assert doc[i] in doc;
      if OptionName(doc[i].text, names).Some? {
        SpacedLineReads(doc[i], OptionName(doc[i].text, names).value);
        SetEntryReads(doc[i], names, updates);
      }
    }
  }

  /** A requested option has, in every section, the value its last line leaves. */
  lemma {:induction false} NamedValue(doc: seq<Entry>, names: seq<string>, updates: map<string, string>,
                                      section: string, key: string, n: nat)
    requires T.AllSound(doc) && Proper(names, updates) && key in names && n <= |doc|
    ensures Get(ValuesOf("", SetEntries(doc, names, updates)[..n]), MapKey(section, key))
         == Left(doc, updates, section, key, n)
  {
    hide ValuesOf, SectionAfter, MapKey, T.AllSound, IsKeyName;
    if n == 0 {
      P.NothingRead("");
      assert SetEntries(doc, names, updates)[..0] == [];
    } else {
      NamedValue(doc, names, updates, section, key, n - 1);
      NamedStep(doc, names, updates, section, key, n - 1);
    }
  }

  /** What entry i of the written file assigns. */
  lemma WrittenEntry(doc: seq<Entry>, names: seq<string>, updates: map<string, string>, section: string,
                     key: string, i: nat)
    requires T.AllSound(doc) && Proper(names, updates) && key in names && i < |doc|
    ensures var w := SetEntries(doc, names, updates);
            && (w[i].meaning.Assign? && KeyAt(w, i) == MapKey(section, key) <==> Touches(doc, i, section, key))
            && (Touches(doc, i, section, key) ==>
                  w[i].meaning.value == if IsSpaced(doc[i], key) then Trimmed(updates[key]) else doc[i].meaning.value)
  {
    hide ValuesOf, MapKey, IsKeyName, SectionAfter, OptionName, T.Sound, IsSpaced;
    var w, here := SetEntries(doc, names, updates), SectionAfter("", doc[..i]);
    SectionsStay(doc, names, updates, i);
    NameOfSpacedLine(doc[i], names, updates, key);
    KeyHasNoSlash(key);
    assert doc[i] in doc;
    match OptionName(doc[i].text, names) {
      case Some(m) =>
        assert m in names && IsSpaced(doc[i], m) by { NameIsSpaced(doc[i], names); }
        KeyHasNoSlash(m);
        SpacedLineReads(doc[i], m);
        SetEntryReads(doc[i], names, updates);
        if MapKey(here, m) == MapKey(section, key) {
          MapKeyInjective(here, m, section, key);
        }
      case None =>
        if doc[i].meaning.Assign? {
          SoundKey(doc[i]);
          KeyHasNoSlash(doc[i].meaning.key);
          if MapKey(here, doc[i].meaning.key) == MapKey(section, key) {
            MapKeyInjective(here, doc[i].meaning.key, section, key);
          }
        }
    }
  }

  lemma NameIsSpaced(e: Entry, names: seq<string>)
    requires OptionName(e.text, names).Some?
    ensures OptionName(e.text, names).value in names && IsSpaced(e, OptionName(e.text, names).value)
  {
  }

  lemma SoundKey(e: Entry)
    requires T.Sound(e) && e.meaning.Assign?
    ensures IsKeyName(e.meaning.key)
  {
    AssignIsClean(e.text);
  }

  lemma NamedStep(doc: seq<Entry>, names: seq<string>, updates: map<string, string>, section: string,
                  key: string, i: nat)
    requires T.AllSound(doc) && Proper(names, updates) && key in names && i < |doc|
    requires Get(ValuesOf("", SetEntries(doc, names, updates)[..i]), MapKey(section, key))
        == Left(doc, updates, section, key, i)
    ensures Get(ValuesOf("", SetEntries(doc, names, updates)[..i + 1]), MapKey(section, key))
         == Left(doc, updates, section, key, i + 1)
  {
    hide ValuesOf, SectionAfter, MapKey, KeyAt, SetEntries, T.AllSound, IsKeyName, Touches, IsSpaced;
    WrittenEntry(doc, names, updates, section, key, i);
    P.Step(SetEntries(doc, names, updates), i);
  }

  /** Options of other keys mean what they did. */
  lemma {:induction false} OtherValue(doc: seq<Entry>, names: seq<string>, updates: map<string, string>,
                                      k: string, n: nat)
    requires T.AllSound(doc) && Proper(names, updates) && n <= |doc|
    requires forall s, m :: m in names ==> MapKey(s, m) != k
    ensures Get(ValuesOf("", SetEntries(doc, names, updates)[..n]), k) == Get(ValuesOf("", doc[..n]), k)
  {
    hide ValuesOf, SectionAfter, MapKey, T.Sound, IsKeyName, OptionName, IsSpaced;
    var w := SetEntries(doc, names, updates);
    if n == 0 {
      assert w[..0] == doc[..0];
    } else {
      var i := n - 1;
      OtherValue(doc, names, updates, k, i);
      SectionsStay(doc, names, updates, i);
      P.Step(doc, i);
      P.Step(w, i);
      assert doc[i] in doc;
      if OptionName(doc[i].text, names).Some? {
        NameIsSpaced(doc[i], names);
        SpacedLineReads(doc[i], OptionName(doc[i].text, names).value);
        SetEntryReads(doc[i], names, updates);
      }
    }
  }

  /** What the option meant before, as far as its last line tells. */
  lemma {:induction false} OldValue(doc: seq<Entry>, section: string, key: string, n: nat)
    requires T.AllSound(doc) && IsKeyName(key) && n <= |doc|
    ensures var i, before := LastLine(doc, section, key, n), Get(ValuesOf("", doc[..n]), MapKey(section, key));
            && (i < 0 ==> before == None)
            && (i >= 0 && !IsSpaced(doc[i], key) ==> before == Some(doc[i].meaning.value))
  {
    hide ValuesOf, SectionAfter, MapKey, T.Sound, IsKeyName, IsSpaced;
    if n == 0 {
      P.NothingRead("");
      assert doc[..0] == [];
    } else {
      var i := n - 1;
      OldValue(doc, section, key, i);
      P.Step(doc, i);
      assert doc[i] in doc;
      KeyHasNoSlash(key);
      if doc[i].meaning.Assign? {
        SoundKey(doc[i]);
        KeyHasNoSlash(doc[i].meaning.key);
        if KeyAt(doc, i) == MapKey(section, key) {
          MapKeyInjective(SectionAfter("", doc[..i]), doc[i].meaning.key, section, key);
        }
      }
    }
  }

  // ----- the text `set` writes -----

  predicate PlainNames(names: seq<string>) {
    forall n :: n in names ==> NoNewline(n)
  }

  lemma ProperNamesArePlain(names: seq<string>, updates: map<string, string>)
    requires Proper(names, updates)
    ensures OneLiners(names, updates)
    ensures PlainNames(names) && forall n :: n in names ==> n in updates
  {
    forall n | n in names ensures NoNewline(n) {
      assert forall c :: c in n ==> KeyChar.Has(c);
    }
  }

  lemma OneLinersArePlain(names: seq<string>, updates: map<string, string>)
    requires OneLiners(names, updates)
    ensures PlainNames(names) && forall n :: n in names ==> n in updates
  {
  }

  /** A line's terminator cannot make a name match. */
  lemma {:induction false} TerminatorIsIrrelevant(line: string, end: string, names: seq<string>)
    requires end == "" || end == "\n"
    requires PlainNames(names)
    ensures OptionName(line + end, names) == OptionName(line, names)
  {
    if names == [] {
    } else {
      assert names[0] in names;
      PrefixOfLine(names[0] + " ", line, end);
      TerminatorIsIrrelevant(line, end, names[1..]);
    }
  }

  lemma PrefixOfLine(prefix: string, line: string, end: string)
    requires prefix != "" && prefix[|prefix| - 1] == ' ' && (end == "" || end == "\n")
    ensures prefix <= line + end <==> prefix <= line
  {
    if |line| < |prefix| <= |line + end| {
      assert (line + end)[..|prefix|][|prefix| - 1] == '\n';
    }
  }

  /** Whether the text `set` writes ends in a newline: it adds one after a rewritten last line. */
  predicate SetEnds(contents: string, names: seq<string>) {
    || EndsWithNewline(contents)
    || OptionName(Lines(contents)[|Lines(contents)| - 1], names).Some?
  }

  lemma SetPieces(contents: string, names: seq<string>, updates: map<string, string>)
    requires PlainNames(names) && forall n :: n in names ==> n in updates
    ensures SetLines(ReadLines(contents), names, updates)
         == Terminated(Texts(SetEntries(Entries(Lines(contents)), names, updates)), SetEnds(contents, names))
  {
    hide OptionName, Lines, EndsWithNewline, Read;
    var lines, nl := Lines(contents), EndsWithNewline(contents);
    var read := ReadLines(contents);
    var entries := SetEntries(Entries(lines), names, updates);
    forall i | 0 <= i < |lines|
      ensures SetLine(read[i], names, updates) == Terminated(Texts(entries), SetEnds(contents, names))[i]
    {
      var end := if i < |lines| - 1 || nl then "\n" else "";
      assert read[i] == lines[i] + end;
      TerminatorIsIrrelevant(lines[i], end, names);
    }
  }

  lemma SetEntriesSound(doc: seq<Entry>, names: seq<string>, updates: map<string, string>)
    requires T.AllSound(doc) && OneLiners(names, updates)
    ensures T.AllSound(SetEntries(doc, names, updates))
    ensures forall i :: 0 <= i < |doc| && OptionName(doc[i].text, names).Some? ==>
              SetEntries(doc, names, updates)[i].text != ""
  {
    hide Read;
    forall i | 0 <= i < |doc|
      ensures T.Sound(SetEntries(doc, names, updates)[i])
      ensures OptionName(doc[i].text, names).Some? ==> SetEntries(doc, names, updates)[i].text != ""
    {
      if OptionName(doc[i].text, names).Some? {
        var n := OptionName(doc[i].text, names).value;
        assert forall c :: c in OptionStem(n) + updates[n] ==> c in n || c in " = " || c in updates[n];
      } else {
        assert doc[i] in doc;
      }
    }
  }

  lemma {:induction false} JoinOfNonEmpty(lines: seq<string>, i: nat)
    requires i < |lines| && lines[i] != ""
    ensures Join(lines) != ""
  {
    if i == 0 {
    } else {
      JoinOfNonEmpty(lines[1..], i - 1);
    }
  }

  lemma SetTail(contents: string, names: seq<string>, updates: map<string, string>)
    requires OneLiners(names, updates) && |Lines(contents)| > 0
    ensures var entries := SetEntries(Entries(Lines(contents)), names, updates);
            SetEnds(contents, names) || (entries != [] && entries[|entries| - 1].text != "")
  {
    hide Read, OptionName, Split, OneLiners;
    if !EndsWithNewline(contents) {
      T.LastLineNonEmpty(contents);
    }
  }

  /** The text is the written entries, line by line. */
  lemma SetText(contents: string, names: seq<string>, updates: map<string, string>, i: nat)
    requires OneLiners(names, updates) && i < |Lines(contents)| && OptionName(Lines(contents)[i], names).Some?
    ensures Concat(SetLines(ReadLines(contents), names, updates))
         == Unlines(Texts(SetEntries(Entries(Lines(contents)), names, updates)), SetEnds(contents, names))
  {
    hide Read, SetLines, Concat, Lines, Join, SetEnds, ReadLines, Terminated, OptionName, T.AllSound,
         OneLiners;
    OneLinersArePlain(names, updates);
    SetPieces(contents, names, updates);
    var doc := Entries(Lines(contents));
    T.EntriesSound(Lines(contents));
    SetEntriesSound(doc, names, updates);
    var texts := Texts(SetEntries(doc, names, updates));
    assert doc[i].text == Lines(contents)[i];
    assert texts[i] != "";
    JoinOfNonEmpty(texts, i);
    ConcatTerminated(texts, SetEnds(contents, names));
  }

  /** The written file means what the written entries do. */
  lemma SetReads(contents: string, names: seq<string>, updates: map<string, string>, i: nat)
    requires OneLiners(names, updates) && i < |Lines(contents)| && OptionName(Lines(contents)[i], names).Some?
    ensures ParseValues(Concat(SetLines(ReadLines(contents), names, updates)))
         == ValuesOf("", SetEntries(Entries(Lines(contents)), names, updates))
  {
    hide *;
    OneLinersArePlain(names, updates);
    var doc := Entries(Lines(contents));
    SetText(contents, names, updates, i);
    SetTail(contents, names, updates);
    T.EntriesSound(Lines(contents));
    SetEntriesSound(doc, names, updates);
    T.Reload(SetEntries(doc, names, updates), SetEnds(contents, names));
  }

  // ----- running the command again -----

  /** Reading the written file gives the pieces it was written from. */
  lemma WrittenPieces(contents: string, names: seq<string>, updates: map<string, string>, i: nat)
    requires OneLiners(names, updates) && i < |Lines(contents)| && OptionName(Lines(contents)[i], names).Some?
    ensures ReadLines(Concat(SetLines(ReadLines(contents), names, updates)))
        == SetLines(ReadLines(contents), names, updates)
  {
    hide Read, Lines, Join, SetEnds, Terminated, OptionName, T.AllSound, SetLines, Concat, EndsWithNewline, OneLiners;
    OneLinersArePlain(names, updates);
    var doc := Entries(Lines(contents));
    T.EntriesSound(Lines(contents));
    SetEntriesSound(doc, names, updates);
    SetText(contents, names, updates, i);
    SetTail(contents, names, updates);
    SetPieces(contents, names, updates);
    var entries := SetEntries(doc, names, updates);
    T.SoundEntriesReload(entries);
    assert doc[i].text == Lines(contents)[i];
    assert Texts(entries)[i] != "";
    LinesOfUnlines(Texts(entries), SetEnds(contents, names));
  }

  /** The name's new line would be taken for that name again. */
  predicate NamesItself(n: string, names: seq<string>, updates: map<string, string>)
    requires n in updates
  {
    OptionName(NewLine(n, updates), names) == Some(n)
  }

  /** A name's new line is taken for the name or an earlier one. */
  lemma NamedNoLater(names: seq<string>, updates: map<string, string>, i: nat) returns (j: nat)
    requires i < |names| && names[i] in updates
    ensures j <= i && OptionName(NewLine(names[i], updates), names) == Some(names[j])
  {
    var line := NewLine(names[i], updates);
    assert names[i] in names;
    assert line == (names[i] + " ") + ("= " + updates[names[i]] + "\n");
    assert OptionName(line, names).Some?;
    j :| 0 <= j < |names| && IsFirstMatch(line, names, j) && names[j] == OptionName(line, names).value;
  }

  ghost predicate Distinct(names: seq<string>) {
    forall i, j :: 0 <= i < j < |names| ==> names[i] != names[j]
  }

  /** Every requested name is what some requested name's new line is taken for. */
  ghost predicate AllNamed(names: seq<string>, updates: map<string, string>)
    requires forall n :: n in names ==> n in updates
  {
    forall x :: x in names ==> IsNamed(x, names, updates)
  }

  predicate IsNamed(x: string, names: seq<string>, updates: map<string, string>)
    requires forall n :: n in names ==> n in updates
  {
    exists j :: 0 <= j < |names| && OptionName(NewLine(names[j], updates), names) == Some(x)
  }

  /** As a name's new line is taken for no later name, this is only possible if every name is taken for itself. */
  lemma {:induction false} AllNamedByThemselves(names: seq<string>, updates: map<string, string>, i: nat)
    requires (forall n :: n in names ==> n in updates) && Distinct(names) && AllNamed(names, updates) && i <= |names|
    ensures forall j :: i <= j < |names| ==> NamesItself(names[j], names, updates)
    decreases |names| - i
  {
    hide OptionName, NewLine, NamesItself, Distinct, AllNamed;
    if i == |names| {
    } else {
      AllNamedByThemselves(names, updates, i + 1);
      var j := NamedBy(names, updates, i);
      if j <= i {
        var k := NamedNoLater(names, updates, j);
        SameName(names, k, i);
      } else {
        ItselfOnly(names, updates, j, i);
      }
      TakenForItself(names[i], names, updates);
    }
  }

  lemma NamedBy(names: seq<string>, updates: map<string, string>, i: nat) returns (j: nat)
    requires (forall n :: n in names ==> n in updates) && AllNamed(names, updates) && i < |names|
    ensures j < |names| && OptionName(NewLine(names[j], updates), names) == Some(names[i])
  {
    hide OptionName, NewLine;
    assert IsNamed(names[i], names, updates);
    j :| j < |names| && OptionName(NewLine(names[j], updates), names) == Some(names[i]);
  }

  lemma SameName(names: seq<string>, i: nat, j: nat)
    requires Distinct(names) && i < |names| && j < |names| && names[i] == names[j]
    ensures i == j
  {
  }

  lemma TakenForItself(n: string, names: seq<string>, updates: map<string, string>)
    requires n in updates
    ensures NamesItself(n, names, updates) <==> OptionName(NewLine(n, updates), names) == Some(n)
  {
  }

  lemma ItselfOnly(names: seq<string>, updates: map<string, string>, j: nat, i: nat)
    requires Distinct(names) && i < j < |names| && names[j] in updates && NamesItself(names[j], names, updates)
    ensures OptionName(NewLine(names[j], updates), names) != Some(names[i])
  {
    hide OptionName, NewLine;
  }

  lemma {:induction false} NamesAreDistinct(arguments: seq<string>, n: nat)
    requires 2 * n <= |arguments|
    ensures Distinct(Names(arguments, n))
  {
    if n == 0 {
    } else {
      NamesAreDistinct(arguments, n - 1);
    }
  }

  lemma NewLineOf(line: string, names: seq<string>, updates: map<string, string>)
    requires forall n :: n in names ==> n in updates
    ensures SetLine(line, names, updates) ==
              if OptionName(line, names).Some? then NewLine(OptionName(line, names).value, updates) else line
  {
  }

  /** If the rewritten lines name every requested name again, the names' own new lines do. */
  lemma FoundAgain(lines: seq<string>, names: seq<string>, updates: map<string, string>)
    requires forall n :: n in names ==> n in updates
    requires forall x :: x in names ==> IsFound(x, SetLines(lines, names, updates), names)
    ensures AllNamed(names, updates)
  {
    hide OptionName, NewLine, SetLine;
    forall x | x in names ensures IsNamed(x, names, updates) {
      var written := SetLines(lines, names, updates);
      var l :| 0 <= l < |written| && OptionName(written[l], names) == Some(x);
      NewLineOf(lines[l], names, updates);
      NameIsNamed(lines[l], names);
      assert written[l] == SetLine(lines[l], names, updates);
      var j :| 0 <= j < |names| && names[j] == OptionName(lines[l], names).value;
      assert OptionName(NewLine(names[j], updates), names) == Some(x);
    }
  }

  lemma NameIsNamed(line: string, names: seq<string>)
    ensures OptionName(line, names).Some? ==> OptionName(line, names).value in names
  {
  }

  /** If every name's new line is taken for it, rewriting rewritten lines changes nothing and finds the same names. */
  lemma Settled(lines: seq<string>, names: seq<string>, updates: map<string, string>)
    requires forall n :: n in names ==> n in updates && NamesItself(n, names, updates)
    ensures SetLines(SetLines(lines, names, updates), names, updates) == SetLines(lines, names, updates)
    ensures forall x :: IsFound(x, lines, names) ==> IsFound(x, SetLines(lines, names, updates), names)
  {
    hide OptionName, NewLine, SetLine;
    var written := SetLines(lines, names, updates);
    forall l | 0 <= l < |lines|
      ensures SetLine(written[l], names, updates) == written[l]
      ensures OptionName(written[l], names) == OptionName(lines[l], names)
    {
      NewLineOf(lines[l], names, updates);
      NewLineOf(written[l], names, updates);
      NameIsNamed(lines[l], names);
    }
    forall x | IsFound(x, lines, names) ensures IsFound(x, written, names) {
      var l :| 0 <= l < |lines| && OptionName(lines[l], names) == Some(x);
      assert OptionName(written[l], names) == Some(x);
    }
  }

  // ----- accepted requests -----

  lemma FoundLine(contents: string, names: seq<string>, x: string) returns (i: nat)
    requires IsFound(x, ReadLines(contents), names) && PlainNames(names)
    ensures i < |Lines(contents)| && OptionName(Lines(contents)[i], names).Some?
  {
    hide OptionName, Lines, EndsWithNewline;
    i :| 0 <= i < |ReadLines(contents)| && OptionName(ReadLines(contents)[i], names) == Some(x);
    var lines := Lines(contents);
    var end := if i < |lines| - 1 || EndsWithNewline(contents) then "\n" else "";
    assert ReadLines(contents)[i] == lines[i] + end;
    TerminatorIsIrrelevant(lines[i], end, names);
  }

  /** A name that starts a line is one line itself. */
  lemma FoundIsPlain(x: string, line: string, end: string)
    requires NoNewline(line) && (end == "" || end == "\n") && x + " " <= line + end
    ensures NoNewline(x)
  {
    forall i | 0 <= i < |x| ensures x[i] != '\n' {
      assert x[i] == (x + " ")[i] == (line + end)[i] == line[i];
    }
  }

  lemma NameFoundIsPlain(contents: string, names: seq<string>, x: string)
    requires IsFound(x, ReadLines(contents), names)
    ensures NoNewline(x)
  {
    hide OptionName, Split, EndsWithNewline;
    var lines, read := Lines(contents), ReadLines(contents);
    var i :| 0 <= i < |read| && OptionName(read[i], names) == Some(x);
    NameStarts(read[i], names);
    var end := if i < |lines| - 1 || EndsWithNewline(contents) then "\n" else "";
    assert read[i] == lines[i] + end;
    FoundIsPlain(x, lines[i], end);
  }

  lemma NameStarts(line: string, names: seq<string>)
    ensures OptionName(line, names).Some? ==> OptionName(line, names).value + " " <= line
  {
  }

  /** Every value is one line, and every name is the first to start some line. */
  predicate Fits(lines: seq<string>, names: seq<string>, updates: map<string, string>) {
    forall x :: x in names ==> x in updates && !HasLineBreak(updates[x]) && IsFound(x, lines, names)
  }

  lemma RefusedForNothing(lines: seq<string>, names: seq<string>, updates: map<string, string>)
    requires forall n :: n in names ==> n in updates
    ensures RefusedFor(lines, names, updates).None? <==> Fits(lines, names, updates)
  {
    hide HasLineBreak, IsFound;
  }

  /** What acceptance says of a request. */
  lemma Accepted(contents: string, arguments: seq<string>)
    requires Refusal(contents, arguments).None?
    ensures |arguments| >= 2 && |arguments| % 2 == 0
    ensures var names, updates := Names(arguments, |arguments| / 2), Updates(arguments, |arguments| / 2);
            Fits(ReadLines(contents), names, updates)
  {
    hide ReadLines, HasLineBreak, IsFound, RefusedFor, Fits, Updates;
    RefusedForNothing(ReadLines(contents), Names(arguments, |arguments| / 2), Updates(arguments, |arguments| / 2));
  }

  lemma AcceptedIsOneLiners(contents: string, arguments: seq<string>)
    requires Refusal(contents, arguments).None?
    ensures OneLiners(Names(arguments, |arguments| / 2), Updates(arguments, |arguments| / 2))
  {
    hide ReadLines, IsFound, Names, Updates, Refusal;
    Accepted(contents, arguments);
    var names := Names(arguments, |arguments| / 2);
    forall x | x in names ensures NoNewline(x) {
      NameFoundIsPlain(contents, names, x);
    }
  }

  /** An accepted request rewrites some line. */
  lemma AcceptedLine(contents: string, arguments: seq<string>) returns (i: nat)
    requires Refusal(contents, arguments).None?
    ensures i < |Lines(contents)|
    ensures OptionName(Lines(contents)[i], Names(arguments, |arguments| / 2)).Some?
  {
    hide ReadLines, IsFound, Names, Updates, Refusal, OptionName, OneLiners, HasLineBreak, Lines;
    Accepted(contents, arguments);
    AcceptedIsOneLiners(contents, arguments);
    var names, updates := Names(arguments, |arguments| / 2), Updates(arguments, |arguments| / 2);
    OneLinersArePlain(names, updates);
    FirstNamed(arguments, |arguments| / 2);
    i := FoundLine(contents, names, arguments[0]);
  }

  lemma {:induction false} FirstNamed(arguments: seq<string>, n: nat)
    requires 0 < n && 2 * n <= |arguments|
    ensures arguments[0] in Names(arguments, n)
  {
    if n == 1 {
    } else {
      FirstNamed(arguments, n - 1);
    }
  }

  /** The script's text for a request. */
  function Rewritten(contents: string, arguments: seq<string>): string
    requires |arguments| % 2 == 0
  {
    var n := |arguments| / 2;
    Concat(SetLines(ReadLines(contents), Names(arguments, n), Updates(arguments, n)))
  }

  /**
   * Running an accepted request again always leaves the file, to the byte, as the first run left it: if it
   * is accepted again it rewrites every line to itself. It is accepted again if and only if every name's new
   * line is taken for that name, as it is for names the pattern knows.
   */
  lemma SetIsIdempotent(contents: string, arguments: seq<string>)
    requires Refusal(contents, arguments).None?
    ensures |arguments| % 2 == 0
    ensures var once := Rewritten(contents, arguments);
            var names, updates := Names(arguments, |arguments| / 2), Updates(arguments, |arguments| / 2);
            && (Refusal(once, arguments).None? ==> Rewritten(once, arguments) == once)
            && (Refusal(once, arguments).None? <==> forall n :: n in names ==> NamesItself(n, names, updates))
            && (Proper(names, updates) ==> Refusal(once, arguments).None?)
  {
    hide ReadLines, IsFound, Names, Updates, Refusal, OptionName, OneLiners, HasLineBreak, Lines, SetLines, Concat,
         NamesItself, IsKeyName;
    Accepted(contents, arguments);
    AcceptedIsOneLiners(contents, arguments);
    var names, updates := Names(arguments, |arguments| / 2), Updates(arguments, |arguments| / 2);
    OneLinersArePlain(names, updates);
    var i := AcceptedLine(contents, arguments);
    WrittenPieces(contents, names, updates, i);
    var once := Rewritten(contents, arguments);
    assert ReadLines(once) == SetLines(ReadLines(contents), names, updates);
    if Refusal(once, arguments).None? {
      AcceptedTwice(contents, once, arguments);
    }
    if Proper(names, updates) {
      KeysNameThemselves(names, updates);
    }
    if forall n :: n in names ==> NamesItself(n, names, updates) {
      Settled(ReadLines(contents), names, updates);
      ReadLinesIsWhole(once);
      FitsIsAccepted(once, arguments);
    }
  }

  lemma AcceptedTwice(contents: string, once: string, arguments: seq<string>)
    requires Refusal(once, arguments).None?
    requires forall n :: n in Names(arguments, |arguments| / 2) ==> n in Updates(arguments, |arguments| / 2)
    requires var names, updates := Names(arguments, |arguments| / 2), Updates(arguments, |arguments| / 2);
             ReadLines(once) == SetLines(ReadLines(contents), names, updates)
    ensures var names, updates := Names(arguments, |arguments| / 2), Updates(arguments, |arguments| / 2);
            forall n :: n in names ==> NamesItself(n, names, updates)
  {
    hide ReadLines, IsFound, Names, Updates, Refusal, OptionName, HasLineBreak, SetLines, NamesItself, Distinct,
         AllNamed;
    var names, updates := Names(arguments, |arguments| / 2), Updates(arguments, |arguments| / 2);
    Accepted(once, arguments);
    FoundAgain(ReadLines(contents), names, updates);
    NamesAreDistinct(arguments, |arguments| / 2);
    AllNamedByThemselves(names, updates, 0);
  }

  lemma FitsIsAccepted(contents: string, arguments: seq<string>)
    requires |arguments| >= 2 && |arguments| % 2 == 0
    requires Fits(ReadLines(contents), Names(arguments, |arguments| / 2), Updates(arguments, |arguments| / 2))
    ensures Refusal(contents, arguments).None?
  {
    hide ReadLines, HasLineBreak, IsFound, Names, Updates, RefusedFor;
    RefusedForNothing(ReadLines(contents), Names(arguments, |arguments| / 2), Updates(arguments, |arguments| / 2));
  }

  lemma KeysNameThemselves(names: seq<string>, updates: map<string, string>)
    requires Proper(names, updates)
    ensures forall n :: n in names ==> NamesItself(n, names, updates)
  {
    hide IsKeyName, OptionName;
    forall n | n in names ensures NamesItself(n, names, updates) {
      var line := NewLine(n, updates);
      assert line == (n + " ") + ("= " + updates[n] + "\n");
      NameOfSpacedLine(Entry(line, Other), names, updates, n);
    }
  }

  const OVERLAPPING: seq<string> := ["a =", "x", "a", "y"]
  const OVERLAPPED: string := Unlines(["a = 1", "a : 2"], true)

  /** The second run can be refused: its names then start the same line, so one of them finds no line of its own. */
  lemma SecondRunCanBeRefused()
    ensures Refusal(OVERLAPPED, OVERLAPPING).None?
    ensures Refusal(Rewritten(OVERLAPPED, OVERLAPPING), OVERLAPPING).Some?
  {
    hide ReadLines, Rewritten, Refusal, Fits, OptionName, NamesItself, Names, Updates, OVERLAPPED;
    OverlappingRequest();
    OverlappedLines();
    OverlappingIsAccepted();
    OverlappingName("y");
    SetIsIdempotent(OVERLAPPED, OVERLAPPING);
    assert "a" in Names(OVERLAPPING, 2);
  }

  lemma OverlappingName(value: string)
    ensures !NamesItself("a", ["a =", "a"], map["a =" := "x", "a" := value])
  {
    var line := NewLine("a", map["a =" := "x", "a" := value]);
    assert line == ("a =" + " ") + (value + "\n");
  }

  lemma OverlappingRequest()
    ensures Names(OVERLAPPING, 2) == ["a =", "a"] && Updates(OVERLAPPING, 2) == map["a =" := "x", "a" := "y"]
  {
    assert Names(OVERLAPPING, 1) == ["a ="] && Updates(OVERLAPPING, 1) == map["a =" := "x"];
  }

  lemma OverlappedLines()
    ensures ReadLines(OVERLAPPED) == ["a = 1\n", "a : 2\n"]
  {
    hide ReadLines, Unlines;
    ReadTwoLines("a = 1", "a : 2");
    assert "a = 1" + "\n" == "a = 1\n" && "a : 2" + "\n" == "a : 2\n";
  }

  lemma ReadTwoLines(a: string, b: string)
    requires NoNewline(a) && NoNewline(b) && b != ""
    ensures ReadLines(Unlines([a, b], true)) == [a + "\n", b + "\n"]
  {
    hide Lines;
    LinesOfUnlines([a, b], true);
    assert [a, b][1..] == [b];
    assert Join([b]) == b && Join([a, b]) == a + "\n" + b;
  }

  lemma OverlappingIsAccepted()
    requires ReadLines(OVERLAPPED) == ["a = 1\n", "a : 2\n"]
    requires Names(OVERLAPPING, 2) == ["a =", "a"] && Updates(OVERLAPPING, 2) == map["a =" := "x", "a" := "y"]
    ensures Refusal(OVERLAPPED, OVERLAPPING).None?
  {
    hide ReadLines, Names, Updates;
    var names, read := ["a =", "a"], ReadLines(OVERLAPPED);
    assert read[0] == "a =" + " " + "1\n" && read[1] == "a" + " " + ": 2\n";
    assert OptionName(read[0], names) == Some("a =");
    assert names[1..] == ["a"];
    assert OptionName(read[1], names) == Some("a") by {
      assert read[1][2] == ':' && ("a =" + " ")[2] == '=';
      assert OptionName(read[1], names[1..]) == Some("a");
    }
    FitsIsAccepted(OVERLAPPED, OVERLAPPING);
  }
}
