/** What a save leaves alone, and the files it cannot change as asked. */
module IniLocality {
  import opened Text
  import opened IniLine
  import opened IniSpec
  import D = IniDocument
  import P = IniPatch
  import T = IniTheorem

  /** Where line i of the file stands in the result. */
  ghost function Position(p: Patch, i: nat): nat
    requires p.Sized() && i < |p.doc|
  {
    |p.Rebuilt(i)| + |p.Inserted(i, |p.sections|)|
  }

  lemma {:induction false} RebuiltIsPrefix(p: Patch, i: nat, n: nat)
    requires p.Sized() && i <= n <= |p.doc|
    ensures p.Rebuilt(i) <= p.Rebuilt(n)
  {
    hide Group, Patch.Inserted, Patch.Appended;
    if i == n {
    } else {
      RebuiltIsPrefix(p, i, n - 1);
    }
  }

  /** The original lines appear in their original order, each as pass one left it. */
  lemma LinesKeepTheirOrder(p: Patch, i: nat, j: nat)
    requires p.Sized() && i < j < |p.doc|
    ensures Position(p, i) < Position(p, j) < |p.Result()|
    ensures p.Result()[Position(p, i)] == p.out[i] && p.Result()[Position(p, j)] == p.out[j]
  {
    hide Group, Patch.Inserted, Patch.Appended;
    LineStands(p, i);
    LineStands(p, j);
    RebuiltIsPrefix(p, i + 1, j);
  }

  lemma LineStands(p: Patch, i: nat)
    requires p.Sized() && i < |p.doc|
    ensures Position(p, i) < |p.Result()| && p.Result()[Position(p, i)] == p.out[i]
    ensures |p.Rebuilt(i + 1)| == Position(p, i) + 1
  {
    hide Group, Patch.Inserted, Patch.Appended;
    RebuiltIsPrefix(p, i + 1, |p.doc|);
    assert p.Rebuilt(i + 1)[Position(p, i)] == p.out[i];
  }

  /** A line differs only when a changed option is assigned on it for the first time, and only after its stem. */
  lemma OnlyValuesDiffer(p: Patch, i: nat)
    requires p.Valid() && T.AllSound(p.doc) && i < |p.doc| && p.out[i] != p.doc[i]
    ensures p.doc[i].meaning.Assign?
    ensures var k := KeyAt(p.doc, i);
            && k in p.changes && k !in ValuesOf("", p.doc[..i])
            && p.out[i].text == p.doc[i].meaning.stem + p.changes[k]
            && exists rest :: p.doc[i].text == p.doc[i].meaning.stem + rest
  {
    assert p.doc[i] in p.doc;
    var rest := AssignParts(p.doc[i].text);
  }

  lemma SectionsComeFromSlots(p: Patch)
    requires p.Valid() && p.sections != []
    ensures p.slots != map[]
  {
    var s := p.sections[0];
    assert s in p.sections;
    var k :| k in p.slots && p.slots[k].section == s;
  }

  /** With nothing to change, the text comes back byte for byte, except that a lone newline is dropped. */
  lemma NoChangesIsIdentity(contents: string, p: Patch)
    requires p.Valid() && p.doc == Entries(Lines(contents)) && p.changes == map[]
    ensures p.Sized()
    ensures T.PatchText(contents, p) == if contents == "\n" then "" else contents
  {
    assert p.slots == map[];
    if p.sections != [] {
      SectionsComeFromSlots(p);
    }
    D.NothingAdded(p);
    assert forall i :: 0 <= i < |p.doc| ==> Rewritten(p.doc, p.changes, i) == p.doc[i];
    assert p.out == p.doc;
    assert Texts(p.doc) == Lines(contents);
    UnlinesOfLines(contents);
  }

  // ----- where new lines go -----

  /** Line j lies in the section; its header does, too. */
  predicate IsLineOf(doc: seq<Entry>, section: string, j: nat)
    requires j < |doc|
  {
    SectionAfter("", doc[..j + 1]) == section
  }

  lemma {:induction false} EndIsLastLine(doc: seq<Entry>, n: nat, section: string)
    requires n <= |doc|
    ensures var e := EndOf(doc, n, section);
            && (e > 0 ==> IsLineOf(doc, section, e - 1))
            && forall j :: 0 <= j < n && j >= e ==> !IsLineOf(doc, section, j)
  {
    if n == 0 {
    } else {
      EndIsLastLine(doc, n - 1, section);
    }
  }

  lemma {:induction false} OnlyBlanksSkipped(out: seq<Entry>, i: nat)
    requires i <= |out|
    ensures var r := BackOverBlanks(out, i);
            && 0 <= r <= i && (forall j :: r <= j < i ==> IsBlank(out[j].text))
            && (r > 0 ==> !IsBlank(out[r - 1].text))
    decreases i
  {
    hide IsBlank;
    if i == 0 || !IsBlank(out[i - 1].text) {
    } else {
      OnlyBlanksSkipped(out, i - 1);
    }
  }

  /** Every line of the section from i on is blank, and so is what comes before it from i on; before i is no blank. */
  predicate IsEndOf(doc: seq<Entry>, out: seq<Entry>, section: string, i: nat)
    requires |out| == |doc| && i <= |doc|
  {
    && (forall j :: i <= j < |doc| && IsLineOf(doc, section, j) ==> forall b :: i <= b <= j ==> IsBlank(out[b].text))
    && (i > 0 ==> !IsBlank(out[i - 1].text))
  }

  predicate HasLineOf(doc: seq<Entry>, section: string) {
    exists j :: 0 <= j < |doc| && IsLineOf(doc, section, j)
  }

  /** The insertion point of a section is its end, and there is one if and only if the file has a line of it. */
  lemma InsertPointIsTheEnd(doc: seq<Entry>, out: seq<Entry>, section: string)
    requires |out| == |doc|
    ensures var i := InsertAt(doc, out, section);
            (i >= 0 <==> HasLineOf(doc, section)) && (i >= 0 ==> IsEndOf(doc, out, section, i))
  {
    hide IsBlank, IsLineOf;
    var e := EndOf(doc, |doc|, section);
    EndIsLastLine(doc, |doc|, section);
    if e >= 0 {
      OnlyBlanksSkipped(out, e);
    }
  }

  lemma {:induction false} AddedIsInGroup(section: string, order: seq<string>, slots: map<string, Slot>,
                                          changes: map<string, string>, k: string)
    requires (forall x :: x in order ==> x in changes && x in slots) && k in order && slots[k].section == section
    ensures Added(slots[k].key, changes[k]) in Group(section, order, slots, changes)
  {
    var init, last := order[..|order| - 1], order[|order| - 1];
    if k == last {
    } else {
      assert order == init + [last];
      AddedIsInGroup(section, init, slots, changes, k);
    }
  }

  lemma {:induction false} GroupIsInserted(p: Patch, i: int, m: nat, section: string, e: Entry)
    requires p.Sized() && m <= |p.sections| && section in p.sections[..m] && p.at[section] == i
    requires e in Group(section, p.order, p.slots, p.changes)
    ensures e in p.Inserted(i, m)
  {
    hide Group;
    P.PrefixStep(p.sections, m - 1);
    if p.sections[m - 1] == section {
    } else {
      GroupIsInserted(p, i, m - 1, section, e);
    }
  }

  lemma {:induction false} GroupIsAppended(p: Patch, m: nat, section: string, e: Entry)
    requires p.Sized() && m <= |p.sections| && section in p.sections[..m] && p.at[section] < 0
    requires e in Group(section, p.order, p.slots, p.changes)
    ensures e in p.Appended(m)
  {
    hide Group, Patch.Gap;
    P.PrefixStep(p.sections, m - 1);
    if p.sections[m - 1] == section {
    } else {
      GroupIsAppended(p, m - 1, section, e);
    }
  }

  /** Position q of the result lies after every line before i and before every other. */
  ghost predicate IsBetween(p: Patch, i: nat, q: nat)
    requires p.Sized() && i <= |p.doc|
  {
    && (forall j :: 0 <= j < i ==> Position(p, j) < q)
    && (forall j :: i <= j < |p.doc| ==> q < Position(p, j))
  }

  lemma InsertedStands(p: Patch, i: nat, x: nat)
    requires p.Sized() && i <= |p.doc| && x < |p.Inserted(i, |p.sections|)|
    ensures |p.Rebuilt(i)| + x < |p.Result()|
    ensures p.Result()[|p.Rebuilt(i)| + x] == p.Inserted(i, |p.sections|)[x]
    ensures IsBetween(p, i, |p.Rebuilt(i)| + x)
  {
    hide Group, Patch.Inserted, Patch.Appended;
    if i < |p.doc| {
      RebuiltIsPrefix(p, i + 1, |p.doc|);
      assert p.Rebuilt(i + 1)[|p.Rebuilt(i)| + x] == p.Inserted(i, |p.sections|)[x];
    }
    forall j | 0 <= j < i ensures Position(p, j) < |p.Rebuilt(i)| + x {
      RebuiltIsPrefix(p, j + 1, i);
      LineStands(p, j);
    }
    forall j | i < j < |p.doc| ensures |p.Rebuilt(i)| + x < Position(p, j) {
      RebuiltIsPrefix(p, i + 1, j);
    }
  }

  lemma AppendedStands(p: Patch, x: nat)
    requires p.Sized() && x < |p.Appended(|p.sections|)|
    ensures var q := |p.Rebuilt(|p.doc|)| + |p.Inserted(|p.doc|, |p.sections|)| + x;
            q < |p.Result()| && p.Result()[q] == p.Appended(|p.sections|)[x] && IsBetween(p, |p.doc|, q)
  {
    hide Group, Patch.Inserted, Patch.Appended;
    forall j | 0 <= j < |p.doc| ensures Position(p, j) < |p.Rebuilt(|p.doc|)| {
      RebuiltIsPrefix(p, j + 1, |p.doc|);
      LineStands(p, j);
    }
  }

  lemma InsertedLine(p: Patch, section: string, e: Entry) returns (q: nat)
    requires p.Sized() && section in p.sections && 0 <= p.at[section] <= |p.doc|
    requires e in Group(section, p.order, p.slots, p.changes)
    ensures q < |p.Result()| && p.Result()[q] == e && IsBetween(p, p.at[section], q)
  {
    hide Group, Patch.Inserted, Patch.Appended, IsBetween, Patch.Result;
    assert p.sections[..|p.sections|] == p.sections;
    GroupIsInserted(p, p.at[section], |p.sections|, section, e);
    var x :| 0 <= x < |p.Inserted(p.at[section], |p.sections|)| && p.Inserted(p.at[section], |p.sections|)[x] == e;
    InsertedStands(p, p.at[section], x);
    q := |p.Rebuilt(p.at[section])| + x;
  }

  lemma AppendedLine(p: Patch, section: string, e: Entry) returns (q: nat)
    requires p.Sized() && section in p.sections && p.at[section] < 0
    requires e in Group(section, p.order, p.slots, p.changes)
    ensures q < |p.Result()| && p.Result()[q] == e && IsBetween(p, |p.doc|, q)
  {
    hide Group, Patch.Inserted, Patch.Appended, IsBetween, Patch.Result;
    assert p.sections[..|p.sections|] == p.sections;
    GroupIsAppended(p, |p.sections|, section, e);
    var x :| 0 <= x < |p.Appended(|p.sections|)| && p.Appended(|p.sections|)[x] == e;
    AppendedStands(p, x);
    q := |p.Rebuilt(|p.doc|)| + |p.Inserted(|p.doc|, |p.sections|)| + x;
  }

  lemma OptionIsPlaced(p: Patch, k: string)
    requires p.Valid() && p.Sized() && k in p.order
    ensures var s := p.slots[k].section;
            s in p.sections && p.at[s] == InsertAt(p.doc, p.out, s) && p.at[s] <= |p.doc|
  {
    hide InsertAt, PassOne;
    assert k in p.slots;
    assert p.slots[k].section in p.sections;
    InsertAtIsInside(p.doc, p.out, p.slots[k].section);
  }

  lemma InsertAtIsInside(doc: seq<Entry>, out: seq<Entry>, section: string)
    requires |out| == |doc|
    ensures -1 <= InsertAt(doc, out, section) <= |doc|
  {
  }

  /**
   * The line of a new option goes to the end of its section: after its last line that is not blank, and before
   * the blank lines that follow; or to the end of the file, if the file lacks the section.
   */
  lemma NewLineIsLast(p: Patch, k: string) returns (q: nat)
    requires p.Valid() && p.Sized() && k in p.order
    ensures q < |p.Result()| && p.Result()[q] == Added(p.slots[k].key, p.changes[k])
    ensures HasLineOf(p.doc, p.slots[k].section) ==>
              exists i: nat :: i <= |p.doc| && IsEndOf(p.doc, p.out, p.slots[k].section, i) && IsBetween(p, i, q)
    ensures !HasLineOf(p.doc, p.slots[k].section) ==> IsBetween(p, |p.doc|, q)
  {
    hide Group, IsEndOf, HasLineOf, InsertAt, IsBetween, Patch.Valid, Patch.Result;
    var s, e := p.slots[k].section, Added(p.slots[k].key, p.changes[k]);
    OptionIsPlaced(p, k);
    InsertPointIsTheEnd(p.doc, p.out, s);
    AddedIsInGroup(s, p.order, p.slots, p.changes, k);
    if p.at[s] >= 0 {
      q := InsertedLine(p, s, e);
    } else {
      q := AppendedLine(p, s, e);
    }
  }

  // ----- where new sections go -----

  lemma BracketIsNotBlank(section: string)
    ensures !IsBlank(HeaderLine(section))
  {
    BlankMeansSpaces(HeaderLine(section));
    assert HeaderLine(section)[0] == '[' && '[' in HeaderLine(section);
  }

  lemma OptionIsNotBlank(key: string, value: string)
    ensures !IsBlank(Added(key, value).text)
  {
    var line := OptionStem(key) + value;
    BlankMeansSpaces(line);
    assert line[|key| + 1] == '=' && '=' in line;
  }

  /** No new line but a separating one is blank. */
  lemma {:induction false} GroupIsNotBlank(section: string, order: seq<string>, slots: map<string, Slot>,
                                           changes: map<string, string>)
    requires forall x :: x in order ==> x in changes && x in slots
    ensures forall e :: e in Group(section, order, slots, changes) ==> !IsBlank(e.text)
  {
    hide IsBlank;
    if order == [] {
    } else {
      var init, k := order[..|order| - 1], order[|order| - 1];
      GroupIsNotBlank(section, init, slots, changes);
      OptionIsNotBlank(slots[k].key, changes[k]);
    }
  }

  lemma NewSectionIsNotBlank(p: Patch, section: string)
    requires p.Sized()
    ensures forall e :: e in p.NewSection(section) ==> !IsBlank(e.text)
  {
    hide IsBlank, Group;
    BracketIsNotBlank(section);
    GroupIsNotBlank(section, p.order, p.slots, p.changes);
  }

  lemma {:induction false} InsertedIsNotBlank(p: Patch, i: int, m: nat)
    requires p.Sized() && m <= |p.sections|
    ensures forall e :: e in p.Inserted(i, m) ==> !IsBlank(e.text)
  {
    hide IsBlank, Group;
    if m == 0 {
    } else {
      InsertedIsNotBlank(p, i, m - 1);
      GroupIsNotBlank(p.sections[m - 1], p.order, p.slots, p.changes);
    }
  }

  predicate EndsBlank(lines: seq<Entry>) {
    lines != [] && IsBlank(lines[|lines| - 1].text)
  }

  lemma {:induction false} AppendedEndsInText(p: Patch, m: nat)
    requires p.Sized() && m <= |p.sections|
    ensures !EndsBlank(p.Appended(m))
  {
    hide IsBlank, Patch.Gap;
    if m == 0 {
    } else {
      AppendedEndsInText(p, m - 1);
      var s := p.sections[m - 1];
      if p.at[s] < 0 {
        NewSectionIsNotBlank(p, s);
        var all := p.Appended(m);
        assert all[|all| - 1] in p.NewSection(s);
      }
    }
  }

  lemma {:induction false} AppendedIsPrefix(p: Patch, m: nat, n: nat)
    requires p.Sized() && m <= n <= |p.sections|
    ensures p.Appended(m) <= p.Appended(n)
  {
    hide Patch.Gap, Patch.NewSection;
    if m == n {
    } else {
      AppendedIsPrefix(p, m, n - 1);
    }
  }

  /** The lines before the new sections. */
  ghost function Base(p: Patch): seq<Entry>
    requires p.Sized()
  {
    p.Rebuilt(|p.doc|) + p.Inserted(|p.doc|, |p.sections|)
  }

  lemma {:induction false} NothingInserted(p: Patch, i: int, m: nat)
    requires p.Sized() && m <= |p.sections| && forall s :: s in p.sections ==> p.at[s] != i
    ensures p.Inserted(i, m) == []
  {
    hide Group;
    if m == 0 {
    } else {
      NothingInserted(p, i, m - 1);
    }
  }

  lemma NoneAtABlankEnd(p: Patch)
    requires p.Valid() && p.Sized() && p.blankEnd
    ensures forall s :: s in p.sections ==> p.at[s] != |p.doc|
  {
    hide Patch.Valid;
    BlankEndIs(p);
    forall s | s in p.sections ensures p.at[s] != |p.doc| {
      SectionIsPlaced(p, s);
      NotAtABlankEnd(p.doc, p.out, s);
    }
  }

  lemma BlankEndIs(p: Patch)
    requires p.Valid() && p.Sized()
    ensures p.blankEnd <==> p.out == [] || IsBlank(p.out[|p.out| - 1].text)
  {
  }

  lemma SectionIsPlaced(p: Patch, section: string)
    requires p.Valid() && p.Sized() && section in p.sections
    ensures p.at[section] == InsertAt(p.doc, p.out, section)
  {
    hide InsertAt, PassOne;
  }

  lemma NotAtABlankEnd(doc: seq<Entry>, out: seq<Entry>, section: string)
    requires |out| == |doc| && (out == [] || IsBlank(out[|out| - 1].text))
    ensures InsertAt(doc, out, section) != |doc|
  {
    hide IsBlank, InsertAt;
    InsertPointIsTheEnd(doc, out, section);
    if doc == [] {
      NoLines(doc, section);
    }
  }

  lemma NoLines(doc: seq<Entry>, section: string)
    requires doc == []
    ensures !HasLineOf(doc, section)
  {
  }

  /** What stands before the new sections ends in a blank line, or is empty, exactly when the file does. */
  lemma BaseEndsAsFile(p: Patch)
    requires p.Valid() && p.Sized()
    ensures p.blankEnd <==> Base(p) == [] || EndsBlank(Base(p))
  {
    hide IsBlank, Group, Patch.Inserted, Patch.Valid;
    BlankEndIs(p);
    InsertedIsNotBlank(p, |p.doc|, |p.sections|);
    if p.blankEnd {
      NoneAtABlankEnd(p);
      NothingInserted(p, |p.doc|, |p.sections|);
    }
    if p.doc != [] {
      assert p.Rebuilt(|p.doc|)[|p.Rebuilt(|p.doc|)| - 1] == p.out[|p.doc| - 1];
    }
    var tail := p.Inserted(|p.doc|, |p.sections|);
    if tail != [] {
      assert Base(p)[|Base(p)| - 1] == tail[|tail| - 1] && tail[|tail| - 1] in tail;
    }
  }

  /** Position h holds the header, at the top of the file or after exactly one blank line that was there or is new. */
  ghost predicate IsSetApart(lines: seq<Entry>, added: nat, section: string, h: nat) {
    && h < |lines| && lines[h] == Entry(HeaderLine(section), Header(section))
    && (h > 0 ==> IsBlank(lines[h - 1].text))
    && (h > added ==> h > 1 && !IsBlank(lines[h - 2].text))
  }

  /**
   * A section the file lacks is added after all its lines, with a blank line before its header unless it is the
   * first line of all; a blank line is added for that only where there is none.
   */
  lemma NewSectionIsSetApart(p: Patch, section: string) returns (h: nat)
    requires p.Valid() && p.Sized() && section in p.sections && !HasLineOf(p.doc, section)
    ensures |Base(p)| <= h && IsSetApart(p.Result(), |Base(p)|, section, h)
  {
    hide Patch.Inserted, Patch.Rebuilt, Patch.Appended, Patch.Result, Patch.Valid, InsertAt, HasLineOf, EndsBlank,
         IsSetApart, Base;
    SectionIsPlaced(p, section);
    InsertPointIsTheEnd(p.doc, p.out, section);
    var m: nat :| m < |p.sections| && p.sections[m] == section;
    BaseEndsAsFile(p);
    AppendedEndsInText(p, m);
    AppendedIsPrefix(p, m + 1, |p.sections|);
    h := SetApartAt(p, m);
  }

  lemma BlankIsBlank()
    ensures IsBlank("")
  {
  }

  /** The same of any lines: a header after those before it, separated unless they are none or end blank. */
  lemma SetApartIn(base: seq<Entry>, before: seq<Entry>, gap: seq<Entry>, news: seq<Entry>, rest: seq<Entry>,
                   section: string)
    requires news != [] && news[0] == Entry(HeaderLine(section), Header(section)) && !EndsBlank(before)
    requires gap == if before == [] && (base == [] || EndsBlank(base)) then [] else [Entry("", Other)]
    ensures IsSetApart(base + (before + (gap + news) + rest), |base|, section, |base| + |before| + |gap|)
  {
    hide IsBlank, HeaderLine;
    BlankIsBlank();
    var all := before + (gap + news) + rest;
    assert all[|before| + |gap|] == news[0];
    if gap != [] {
      assert all[|before|] == gap[0];
    }
    if before != [] {
      assert all[|before| - 1] == before[|before| - 1];
    }
  }

  lemma SectionIsAppended(p: Patch, m: nat)
    requires p.Sized() && m < |p.sections| && p.at[p.sections[m]] < 0
    ensures var before, news := p.Appended(m), p.NewSection(p.sections[m]);
            && p.Appended(m + 1) == before + (p.Gap(before) + news)
            && p.Gap(before) == (if before == [] && p.blankEnd then [] else [Entry("", Other)])
            && news != [] && news[0] == Entry(HeaderLine(p.sections[m]), Header(p.sections[m]))
  {
    hide Group;
  }

  lemma ResultIsBaseAnd(p: Patch)
    requires p.Sized()
    ensures p.Result() == Base(p) + p.Appended(|p.sections|)
  {
    hide Patch.Appended, Patch.Inserted, Patch.Rebuilt;
  }

  lemma SetApartAt(p: Patch, m: nat) returns (h: nat)
    requires p.Sized() && m < |p.sections| && p.at[p.sections[m]] < 0
    requires p.blankEnd <==> Base(p) == [] || EndsBlank(Base(p))
    requires !EndsBlank(p.Appended(m)) && p.Appended(m + 1) <= p.Appended(|p.sections|)
    ensures |Base(p)| <= h && IsSetApart(p.Result(), |Base(p)|, p.sections[m], h)
  {
    hide Patch.Inserted, Patch.Rebuilt, Patch.Appended, Patch.NewSection, Patch.Gap, EndsBlank, IsSetApart, HeaderLine;
    SectionIsAppended(p, m);
    ResultIsBaseAnd(p);
    var before, gap, all := p.Appended(m), p.Gap(p.Appended(m)), p.Appended(|p.sections|);
    var news, rest := p.NewSection(p.sections[m]), all[|p.Appended(m + 1)|..];
    h := |Base(p)| + |before| + |gap|;
    assert all == before + (gap + news) + rest;
    hide Patch.Result, Base;
    SetApartIn(Base(p), before, gap, news, rest, p.sections[m]);
  }

  // ----- an option assigned twice -----

  ghost const TWICE := [Entry("[a]", Header("a")), Entry("k = 1", Assign("k = ", "k", "1")),
                        Entry("k = 2", Assign("k = ", "k", "2"))]

  lemma TwiceIsAFile()
    ensures Entries(Lines("[a]\nk = 1\nk = 2\n")) == TWICE
    ensures ValuesOf("", TWICE) == map["a/k" := "2"]
    ensures Repeated(TWICE) == {"a/k"}
  {
    hide Read, Lines, ValuesOf, Repeated;
    assert OptionStem("k") == "k = ";
    assert HeaderLine("a") == "[a]";
    HeaderLineReads("a");
    OptionLineReads("k", "1");
    OptionLineReads("k", "2");
    assert "k = " + "1" == "k = 1" && "k = " + "2" == "k = 2";
    TwiceLines();
    TwiceValues();
  }

  lemma TwiceLines()
    ensures Lines("[a]\nk = 1\nk = 2\n") == ["[a]", "k = 1", "k = 2"]
  {
    var lines: seq<string> := ["[a]", "k = 1", "k = 2"];
    assert lines[1..] == ["k = 1", "k = 2"] && lines[1..][1..] == ["k = 2"];
    assert Join(lines[1..]) == "k = 1" + "\n" + "k = 2";
    assert Join(lines) == "[a]" + "\n" + Join(lines[1..]);
    assert Unlines(lines, true) == "[a]\nk = 1\nk = 2\n";
    LinesOfUnlines(lines, true);
  }

  lemma TwiceValues()
    ensures ValuesOf("", TWICE) == map["a/k" := "2"]
    ensures Repeated(TWICE) == {"a/k"}
  {
    assert MapKey("a", "k") == "a/k";
    P.Step(TWICE, 0);
    P.Step(TWICE, 1);
    P.Step(TWICE, 2);
    assert TWICE[..0] == [] && TWICE[..3] == TWICE;
    assert KeyAt(TWICE, 1) == KeyAt(TWICE, 2) == "a/k";
    assert Count(TWICE, 1, "a/k") == 0;
    assert Count(TWICE, 3, "a/k") == 2;
  }

  /** Whatever value is saved for an option written twice has no effect: the second line still wins. */
  lemma ChangingARepeatedOptionIsLost(p: Patch, value: string)
    requires p.Valid() && p.doc == Entries(Lines("[a]\nk = 1\nk = 2\n")) && p.changes == map["a/k" := value]
    requires IsClean(value)
    ensures p.Sized()
    ensures ParseValues(T.PatchText("[a]\nk = 1\nk = 2\n", p)) == map["a/k" := "2"]
  {
    hide Read, Lines, ValuesOf, Repeated, Patch.Valid, FirstSlash, EndOf;
    TwiceIsAFile();
    T.PatchTheorem("[a]\nk = 1\nk = 2\n", p);
  }
}
