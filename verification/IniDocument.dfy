/** The line oriented view of config.ini: loading it, and printing it back with some options changed. */
module IniDocument {
  import opened Text
  import opened IniLine
  import opened IniSpec
  import opened Options
  import P = IniPatch
  import T = IniTheorem

  datatype File = Missing | Unreadable(error: string) | Contents(text: string)

  function TextOf(file: File): string {
    if file.Contents? then file.text else ""
  }

  datatype Line = Line(text: string, section: string, key: string)

  ghost function LineFor(doc: seq<Entry>, i: nat): Line
    requires i < |doc|
  {
    var m := doc[i].meaning;
    Line(doc[i].text, SectionAfter("", doc[..i + 1]), if m.Assign? then m.key else "")
  }

  lemma TextsConcat(a: seq<Entry>, b: seq<Entry>)
    ensures Texts(a + b) == Texts(a) + Texts(b)
  {
  }

  lemma TextsOne(e: Entry)
    ensures Texts([e]) == [e.text]
  {
  }

  lemma {:induction false} PlainRebuilt(p: Patch, i: nat)
    requires p.Sized() && p.sections == [] && i <= |p.doc|
    ensures p.Rebuilt(i) == p.out[..i]
  {
    if i == 0 {
    } else {
      PlainRebuilt(p, i - 1);
      P.PrefixStep(p.out, i - 1);
    }
  }

  lemma NothingAdded(p: Patch)
    requires p.Sized() && p.sections == []
    ensures p.Result() == p.out
  {
    PlainRebuilt(p, |p.doc|);
    assert p.out[..|p.out|] == p.out;
  }

  /** Visiting one more section leaves what the earlier ones contributed. */
  lemma {:induction false} SectionsPrefix(p: Patch, q: Patch, i: int, m: nat)
    requires p.Sized() && q.Sized() && q == p.(sections := q.sections) && p.sections <= q.sections && m <= |p.sections|
    ensures q.Inserted(i, m) == p.Inserted(i, m) && q.Appended(m) == p.Appended(m)
  {
    if m == 0 {
    } else {
      SectionsPrefix(p, q, i, m - 1);
      assert q.sections[m - 1] == p.sections[m - 1];
    }
  }

  lemma NothingEnumerated(xs: set<string>)
    requires xs == {}
    ensures Enumerates<string>([], xs)
  {
  }

  lemma EnumeratesStep<T(!new)>(order: seq<T>, xs: set<T>, x: T)
    requires Enumerates(order, xs) && x !in xs
    ensures Enumerates(order + [x], xs + {x})
  {
  }

  lemma KnownLine(text: string)
    ensures var m := Read(text);
            m.Assign? ==> m.key != "" && MatchAssignment(text).Some? && MatchAssignment(text).value.Stem() == m.stem
  {
    if Read(text).Assign? {
      var _ := AssignParts(text);
    }
  }

  lemma NothingRead()
    ensures SectionAfter("", []) == "" && ValuesOf("", []) == map[]
  {
  }

  lemma NothingVisited(slots: map<string, Slot>, changes: map<string, string>)
    ensures Enumerates<string>([], changes.Keys - changes.Keys)
    ensures Grouped(map[], [], slots, changes)
  {
  }

  /** Each section's list holds the lines of the options visited so far. */
  ghost predicate Grouped(additions: map<string, seq<string>>, order: seq<string>, slots: map<string, Slot>,
                          changes: map<string, string>)
  {
    && (forall k :: k in order ==> k in changes && k in slots)
    && (forall s :: s in additions <==> Group(s, order, slots, changes) != [])
    && (forall s :: s in additions ==> additions[s] == Texts(Group(s, order, slots, changes)))
  }

  lemma GroupGrows(s: string, order: seq<string>, name: string, slots: map<string, Slot>, changes: map<string, string>)
    requires forall k :: k in order + [name] ==> k in changes && k in slots
    ensures var added := Added(slots[name].key, changes[name]);
            Group(s, order + [name], slots, changes) ==
            Group(s, order, slots, changes) + if slots[name].section == s then [added] else []
  {
    assert (order + [name])[..|order|] == order;
  }

  lemma GroupedStep(additions: map<string, seq<string>>, order: seq<string>, name: string, slots: map<string, Slot>,
                    changes: map<string, string>)
    requires Grouped(additions, order, slots, changes) && name in changes && name in slots
    ensures var section := slots[name].section;
            var before := if section in additions then additions[section] else [];
            Grouped(additions[section := before + [OptionStem(slots[name].key) + changes[name]]],
                    order + [name], slots, changes)
  {
    hide Group;
    var section, added := slots[name].section, Added(slots[name].key, changes[name]);
    TextsConcat(Group(section, order, slots, changes), [added]);
    TextsOne(added);
    forall s ensures Group(s, order + [name], slots, changes) ==
                     Group(s, order, slots, changes) + if section == s then [added] else []
    {
      GroupGrows(s, order, name, slots, changes);
    }
  }

  lemma {:induction false} GroupOfAgreeing(section: string, order: seq<string>, slots: map<string, Slot>,
                                           a: map<string, string>, b: map<string, string>)
    requires forall k :: k in order ==> k in a && k in b && k in slots && a[k] == b[k]
    ensures Group(section, order, slots, a) == Group(section, order, slots, b)
  {
    if order == [] {
    } else {
      GroupOfAgreeing(section, order[..|order| - 1], slots, a, b);
    }
  }

  lemma {:induction false} GroupNonEmpty(section: string, order: seq<string>, slots: map<string, Slot>,
                                         changes: map<string, string>)
    requires forall k :: k in order ==> k in changes && k in slots
    ensures Group(section, order, slots, changes) != [] <==> exists k :: k in order && slots[k].section == section
  {
    if order == [] {
    } else {
      var init, k := order[..|order| - 1], order[|order| - 1];
      GroupNonEmpty(section, init, slots, changes);
      assert order == init + [k];
    }
  }

  /** A run before any section is visited; `additions` holds the lines of each section. */
  ghost predicate Started(run: Patch, additions: map<string, seq<string>>) {
    && |run.out| == |run.doc|
    && run.at == (map s | s in additions :: InsertAt(run.doc, run.out, s))
    && (forall s :: s in run.sections ==> s in additions)
    && Grouped(additions, run.order, run.slots, run.changes)
  }

  lemma StartedIsSized(run: Patch, additions: map<string, seq<string>>)
    requires Started(run, additions)
    ensures run.Sized()
  {
  }

  lemma GroupedAgain(additions: map<string, seq<string>>, order: seq<string>, slots: map<string, Slot>,
                     pending: map<string, string>, changes: map<string, string>)
    requires Grouped(additions, order, slots, pending)
    requires forall k :: k in pending ==> k in changes && changes[k] == pending[k]
    ensures Grouped(additions, order, slots, changes)
  {
    forall s ensures Group(s, order, slots, changes) == Group(s, order, slots, pending) {
      GroupOfAgreeing(s, order, slots, changes, pending);
    }
  }

  lemma SectionsAreTheSlots(run: Patch, additions: map<string, seq<string>>)
    requires Grouped(additions, run.order, run.slots, run.changes)
    requires forall k :: k in run.order <==> k in run.slots
    ensures additions.Keys == set k | k in run.slots :: run.slots[k].section
  {
    forall s ensures s in additions <==> exists k :: k in run.order && run.slots[k].section == s {
      GroupNonEmpty(s, run.order, run.slots, run.changes);
    }
  }

  /** A run whose sections are still being visited. */
  ghost predicate Prepared(run: Patch, additions: map<string, seq<string>>) {
    && Started(run, additions)
    && run.out == PassOne(run.doc, run.changes)
    && run.slots == (map k | k in Remaining(run.doc, run.changes) :: SlotOf(k))
    && Enumerates(run.order, Remaining(run.doc, run.changes).Keys)
    && (run.blankEnd <==> run.out == [] || IsBlank(run.out[|run.out| - 1].text))
  }

  ghost function StartOf(doc: seq<Entry>, changes: map<string, string>, order: seq<string>,
                         additions: map<string, seq<string>>): (run: Patch)
    ensures run.doc == doc && run.changes == changes && run.sections == [] && run.out == PassOne(doc, changes)
  {
    var out := PassOne(doc, changes);
    Patch(doc, changes, order, [], out, map k | k in Remaining(doc, changes) :: SlotOf(k),
          map s | s in additions :: InsertAt(doc, out, s), out == [] || IsBlank(out[|out| - 1].text))
  }

  lemma StartIsPrepared(doc: seq<Entry>, changes: map<string, string>, order: seq<string>,
                        additions: map<string, seq<string>>)
    requires var pending := Remaining(doc, changes);
             Enumerates(order, pending.Keys) && Grouped(additions, order, map k | k in pending :: SlotOf(k), pending)
    ensures Prepared(StartOf(doc, changes, order, additions), additions)
  {
    hide PassOne, IsBlank, InsertAt, FirstSlash, Group, Texts, ValuesOf;
    var pending := Remaining(doc, changes);
    GroupedAgain(additions, order, map k | k in pending :: SlotOf(k), pending, changes);
  }

  lemma AtTheSections(run: Patch, additions: map<string, seq<string>>)
    requires run.out == PassOne(run.doc, run.changes) && Enumerates(run.sections, additions.Keys)
    requires run.at == map s | s in additions :: InsertAt(run.doc, run.out, s)
    ensures run.at == map s | s in run.sections :: InsertAt(run.doc, run.out, s)
  {
    hide PassOne, InsertAt;
  }

  lemma RunIsValid(run: Patch, additions: map<string, seq<string>>)
    requires Prepared(run, additions) && Enumerates(run.sections, additions.Keys)
    ensures run.Valid() && run.Sized()
  {
    hide SlotOf, IsBlank, InsertAt, PassOne, ValuesOf, Grouped;
    SectionsAreTheSlots(run, additions);
    StartedIsSized(run, additions);
    AtTheSections(run, additions);
  }

  /** Another section may be visited next. */
  lemma PreparedNext(run: Patch, additions: map<string, seq<string>>, section: string)
    requires Prepared(run, additions) && section in additions
    ensures Prepared(run.(sections := run.sections + [section]), additions)
    ensures section in run.at && |run.out| == |run.doc| && run.Sized()
    ensures run.at[section] == InsertAt(run.doc, run.out, section)
    ensures additions[section] == Texts(Group(section, run.order, run.slots, run.changes))
    ensures run.blankEnd <==> run.out == [] || IsBlank(run.out[|run.out| - 1].text)
  {
    hide PassOne, IsBlank, InsertAt, SlotOf, Group, Texts, ValuesOf;
  }

  lemma RebuiltTexts(run: Patch, i: nat)
    requires run.Sized() && i <= |run.doc|
    ensures run.Rebuilt(0) == []
    ensures i < |run.doc| ==>
              Texts(run.Rebuilt(i + 1)) ==
              Texts(run.Rebuilt(i)) + Texts(run.Inserted(i, |run.sections|)) + [run.out[i].text]
  {
    hide Group, Patch.Inserted;
    if i < |run.doc| {
      TextsConcat(run.Rebuilt(i), run.Inserted(i, |run.sections|));
      TextsConcat(run.Rebuilt(i) + run.Inserted(i, |run.sections|), [run.out[i]]);
      TextsOne(run.out[i]);
    }
  }

  /** What the section loop has built so far. */
  ghost predicate Collected(run: Patch, insertions: map<int, seq<string>>, appended: seq<string>) {
    && run.Sized()
    && (forall i :: i in insertions ==> i >= 0 && insertions[i] == Texts(run.Inserted(i, |run.sections|)))
    && (forall i :: i >= 0 && i !in insertions ==> run.Inserted(i, |run.sections|) == [])
    && appended == Texts(run.Appended(|run.sections|))
  }

  lemma NothingPlaced(run: Patch, additions: map<string, seq<string>>)
    requires Prepared(run, additions) && run.sections == []
    ensures Collected(run, map[], []) && Enumerates<string>([], additions.Keys - additions.Keys)
    ensures run.Result() == run.out
  {
    hide PassOne, IsBlank, InsertAt, SlotOf, Grouped, ValuesOf;
    StartedIsSized(run, additions);
    NothingAdded(run);
  }

  lemma NextSection(run: Patch, s: string, i: int)
    requires run.Sized() && s in run.at
    ensures var next, m := run.(sections := run.sections + [s]), |run.sections|;
            && next.Sized()
            && next.Inserted(i, m + 1) == run.Inserted(i, m) +
               (if run.at[s] == i then Group(s, run.order, run.slots, run.changes) else [])
            && next.Appended(m + 1) == if run.at[s] >= 0 then run.Appended(m)
               else run.Appended(m) + (run.Gap(run.Appended(m)) + run.NewSection(s))
  {
    var next := run.(sections := run.sections + [s]);
    SectionsPrefix(run, next, i, |run.sections|);
  }

  lemma CollectedInsertion(run: Patch, s: string, insertions: map<int, seq<string>>, appended: seq<string>)
    requires Collected(run, insertions, appended) && s in run.at && run.at[s] >= 0
    ensures var i := run.at[s];
            var lines := (if i in insertions then insertions[i] else []) +
                         Texts(Group(s, run.order, run.slots, run.changes));
            Collected(run.(sections := run.sections + [s]), insertions[i := lines], appended)
  {
    hide Group, Texts, Patch.Inserted, Patch.Appended;
    var next, m := run.(sections := run.sections + [s]), |run.sections|;
    TextsConcat(run.Inserted(run.at[s], m), Group(s, run.order, run.slots, run.changes));
    forall i ensures next.Sized() && next.Inserted(i, m + 1) == run.Inserted(i, m) +
                     (if run.at[s] == i then Group(s, run.order, run.slots, run.changes) else [])
    {
      NextSection(run, s, i);
    }
    NextSection(run, s, 0);
    assert |next.sections| == m + 1;
    assert forall i :: i != run.at[s] ==> next.Inserted(i, m + 1) == run.Inserted(i, m);
  }

  lemma CollectedNewSection(run: Patch, s: string, insertions: map<int, seq<string>>, appended: seq<string>)
    requires Collected(run, insertions, appended) && s in run.at && run.at[s] < 0
    ensures var gap: seq<string> := if appended != [] || !run.blankEnd then [""] else [];
            var lines := [HeaderLine(s)] + Texts(Group(s, run.order, run.slots, run.changes));
            Collected(run.(sections := run.sections + [s]), insertions, appended + (gap + lines))
  {
    hide Group, Patch.Inserted, Patch.Appended;
    var next, m := run.(sections := run.sections + [s]), |run.sections|;
    forall i ensures next.Sized() && next.Inserted(i, m + 1) == run.Inserted(i, m) +
                     (if run.at[s] == i then Group(s, run.order, run.slots, run.changes) else [])
    {
      NextSection(run, s, i);
    }
    NextSection(run, s, 0);
    var before := run.Appended(m);
    TextsConcat([Entry(HeaderLine(s), Header(s))], Group(s, run.order, run.slots, run.changes));
    TextsConcat(run.Gap(before), run.NewSection(s));
    TextsConcat(before, run.Gap(before) + run.NewSection(s));
    TextsOne(Entry(HeaderLine(s), Header(s)));
    TextsOne(Entry("", Other));
  }

  class IniDocument {
    var lines: seq<Line>
    var values: map<string, string>
    var endsWithNewline: bool
    ghost var doc: seq<Entry>

    ghost predicate Valid()
      reads this
    {
      && |lines| == |doc|
      && (forall i :: 0 <= i < |doc| ==> lines[i] == LineFor(doc, i) && doc[i].meaning == Read(doc[i].text))
      && values == ValuesOf("", doc)
    }

    constructor ()
      ensures Valid() && doc == [] && endsWithNewline
    {
      lines, values, endsWithNewline, doc := [], map[], true, [];
    }

    /** A missing file is an empty document; an unreadable one leaves the document empty and fails. */
    method Load(file: File) returns (ok: bool)
      modifies this
      ensures Valid()
      ensures ok <==> !file.Unreadable?
      ensures doc == Entries(Lines(TextOf(file)))
      ensures values == ParseValues(TextOf(file))
      ensures endsWithNewline == EndsWithNewline(TextOf(file))
    {
      hide Read, ValuesOf, SectionAfter;
      NothingRead();
      lines, values, endsWithNewline, doc := [], map[], true, [];
      if !file.Contents? {
        assert Lines("") == [];
        return file.Missing?;
      }
      endsWithNewline := EndsWithNewline(file.text);
      ReadLines(Lines(file.text));
      return true;
    }

    method ReadLines(rawLines: seq<string>)
      requires lines == [] && values == map[] && doc == []
      modifies this`lines, this`values, this`doc
      ensures Valid() && doc == Entries(rawLines) && values == ValuesOf("", Entries(rawLines))
    {
      hide MatchSection, MatchAssignment, IsComment, Trimmed, ValuesOf, SectionAfter;
      NothingRead();
      ghost var all := Entries(rawLines);
      var section := "";
      for i := 0 to |rawLines|
        invariant doc == all[..i]
        invariant |lines| == i && (forall j :: 0 <= j < i ==> lines[j] == LineFor(all, j))
        invariant section == SectionAfter("", all[..i])
        invariant values == ValuesOf("", all[..i])
      {
        var raw := rawLines[i];
        var line := Line(raw, section, "");
        match MatchSection(raw) {
          case Some(name) =>
            section := Trimmed(name);
            line := line.(section := section);
          case None =>
            if !IsComment(raw) {
              match MatchAssignment(raw) {
                case Some(m) =>
                  line := line.(key := m.key);
                  values := values[MapKey(section, m.key) := Trimmed(m.rest)];
                case None =>
              }
            }
        }
        P.Step(all, i);
        P.PrefixStep(all, i);
        lines := lines + [line];
        doc := doc + [all[i]];
      }
      assert all[..|all|] == all;
    }

    /** Rewrite the values of the options already in the file; `pending` are the changes left over. */
    method RewriteKnown(changes: map<string, string>) returns (out: seq<string>, pending: map<string, string>)
      requires Valid()
      ensures out == Texts(PassOne(doc, changes))
      ensures pending == Remaining(doc, changes)
    {
      hide Read, MatchAssignment, ValuesOf, SectionAfter;
      NothingRead();
      pending, out := changes, [];
      for i := 0 to |lines|
        invariant |out| == i && (forall j :: 0 <= j < i ==> out[j] == Rewritten(doc, changes, j).text)
        invariant pending == changes - ValuesOf("", doc[..i]).Keys
      {
        var line := lines[i];
        P.Step(doc, i);
        P.PrefixStep(doc, i);
        KnownLine(doc[i].text);
        if line.key == "" || MapKey(line.section, line.key) !in pending {
          out := out + [line.text];
        } else {
          var key := MapKey(line.section, line.key);
          out := out + [MatchAssignment(line.text).value.Stem() + pending[key]];
          pending := pending - {key};
        }
      }
      assert doc[..|doc|] == doc;
    }

    /** Where a section's new lines go: one past its last line, moved up over the blank lines there. */
    method FindInsertAt(out: seq<string>, ghost entries: seq<Entry>, section: string) returns (insertAt: int)
      requires Valid() && |entries| == |doc| && out == Texts(entries)
      ensures insertAt == InsertAt(doc, entries, section)
    {
      hide Read, IsBlank, SectionAfter, ValuesOf;
      insertAt := -1;
      for index := 0 to |lines|
        invariant insertAt == EndOf(doc, index, section)
      {
        if lines[index].section == section {
          insertAt := index + 1;
        }
      }
      while insertAt > 0 && IsBlank(out[insertAt - 1])
        invariant -1 <= insertAt <= |out|
        invariant BackOverBlanks(entries, insertAt) == InsertAt(doc, entries, section)
      {
        insertAt := insertAt - 1;
      }
    }

    /** Group the options the file lacks by section, visiting them in any order. */
    method GroupBySection(pending: map<string, string>, ghost slots: map<string, Slot>)
      returns (additions: map<string, seq<string>>, ghost order: seq<string>)
      requires slots == (map k | k in pending :: SlotOf(k))
      ensures Enumerates(order, pending.Keys)
      ensures Grouped(additions, order, slots, pending)
    {
      hide *;
      additions, order := map[], [];
      var rest := pending.Keys;
      NothingVisited(slots, pending);
      while rest != {}
        invariant rest <= pending.Keys
        invariant Enumerates(order, pending.Keys - rest)
        invariant Grouped(additions, order, slots, pending)
        decreases |rest|
      {
        var name :| name in rest;
        var slot := SlotOf(name);
        var lines := if slot.section in additions then additions[slot.section] else [];
        GroupedStep(additions, order, name, slots, pending);
        additions := additions[slot.section := lines + [OptionStem(slot.key) + pending[name]]];
        EnumeratesStep(order, pending.Keys - rest, name);
        ghost var visited := pending.Keys - rest;
        rest := rest - {name};
        order := order + [name];
        assert pending.Keys - rest == visited + {name};
      }
      assert pending.Keys - rest == pending.Keys;
    }

    /** Work out where each section's lines go: before a line of the file, or in a new section at the end. */
    method PlaceSections(out: seq<string>, additions: map<string, seq<string>>, ghost start: Patch)
      returns (insertions: map<int, seq<string>>, appended: seq<string>, ghost run: Patch)
      requires Valid() && start.doc == doc && out == Texts(start.out)
      requires Prepared(start, additions) && start.sections == []
      ensures run == start.(sections := run.sections) && Prepared(run, additions)
      ensures Enumerates(run.sections, additions.Keys)
      ensures Collected(run, insertions, appended)
    {
      hide Valid, IsBlank, InsertAt, Group, Prepared, Enumerates, Collected;
      insertions, appended, run := map[], [], start;
      NothingPlaced(start, additions);
      var left := additions.Keys;
      while left != {}
        invariant left <= additions.Keys
        invariant run == start.(sections := run.sections) && Prepared(run, additions)
        invariant Enumerates(run.sections, additions.Keys - left)
        invariant Collected(run, insertions, appended)
        decreases |left|
      {
        var section :| section in left;
        PreparedNext(run, additions, section);
        var insertAt := FindInsertAt(out, run.out, section);
        if insertAt < 0 {
          CollectedNewSection(run, section, insertions, appended);
          var gap: seq<string> := if appended != [] || (out != [] && !IsBlank(out[|out| - 1])) then [""] else [];
          appended := appended + (gap + ([HeaderLine(section)] + additions[section]));
        } else {
          CollectedInsertion(run, section, insertions, appended);
          var lines := if insertAt in insertions then insertions[insertAt] else [];
          insertions := insertions[insertAt := lines + additions[section]];
        }
        ghost var visited := additions.Keys - left;
        EnumeratesStep(run.sections, visited, section);
        run := run.(sections := run.sections + [section]);
        left := left - {section};
        assert additions.Keys - left == visited + {section};
      }
      assert additions.Keys - left == additions.Keys;
    }

    /** Insert everything in one pass over the rewritten lines, so the indices stay valid. */
    method Rebuild(out: seq<string>, insertions: map<int, seq<string>>, appended: seq<string>, ghost run: Patch)
      returns (rebuilt: seq<string>)
      requires Collected(run, insertions, appended) && out == Texts(run.out)
      ensures rebuilt == Texts(run.Result())
    {
      hide Group, Patch.Appended, Patch.Rebuilt;
      ghost var m := |run.sections|;
      rebuilt := [];
      RebuiltTexts(run, 0);
      for index := 0 to |out|
        invariant rebuilt == Texts(run.Rebuilt(index))
      {
        RebuiltTexts(run, index);
        if index in insertions {
          rebuilt := rebuilt + insertions[index];
        }
        rebuilt := rebuilt + [out[index]];
      }
      TextsConcat(run.Rebuilt(|out|), run.Inserted(|out|, m));
      TextsConcat(run.Rebuilt(|out|) + run.Inserted(|out|, m), run.Appended(m));
      if |out| in insertions {
        rebuilt := rebuilt + insertions[|out|];
      }
      rebuilt := rebuilt + appended;
    }

    /** The text of the file with the changes made; `run` records the order in which they were visited. */
    method Patched(changes: map<string, string>) returns (text: string, ghost run: Patch)
      requires Valid()
      ensures run.Valid() && run.Sized() && run.doc == doc && run.changes == changes
      ensures text == Unlines(Texts(run.Result()), endsWithNewline)
    {
      hide Valid, PassOne, IsBlank, InsertAt, SlotOf, Group, Prepared, Grouped, Enumerates, Collected, StartOf,
           ValuesOf;
      var out, pending := RewriteKnown(changes);
      ghost var slots := map k | k in pending :: SlotOf(k);
      var additions, order := GroupBySection(pending, slots);
      StartIsPrepared(doc, changes, order, additions);
      run := StartOf(doc, changes, order, additions);
      NothingPlaced(run, additions);
      if additions.Keys != {} {
        var insertions, appended;
        insertions, appended, run := PlaceSections(out, additions, run);
        out := Rebuild(out, insertions, appended, run);
      } else {
        assert additions.Keys == additions.Keys - additions.Keys;
      }
      RunIsValid(run, additions);
      text := Join(out);
      if endsWithNewline && text != "" {
        text := text + "\n";
      }
    }
  }

  /**
   * What a save makes of a file. If the changes can be written, the new text means the old values
   * overridden by all of them exactly when the request is one that can be honoured; if their values are
   * clean, only changes of options that several lines assign are missing.
   */
  method SavedText(contents: string, changes: map<string, string>) returns (text: string)
    ensures KeysFit(Entries(Lines(contents)), changes) ==>
              (ParseValues(text) == ParseValues(contents) + changes <==> T.Honoured(contents, changes))
    ensures KeysFit(Entries(Lines(contents)), changes) && ValuesClean(changes) ==>
              ParseValues(text) == ParseValues(contents) + (changes - Repeated(Entries(Lines(contents))))
  {
    hide KeysFit, Lines, ParseValues, IniDocument.Valid, Patch.Valid, Patch.Sized, T.Honoured, Repeated, ValuesClean;
    var document := new IniDocument();
    var _ := document.Load(Contents(contents));
    ghost var run;
    text, run := document.Patched(changes);
    if KeysFit(run.doc, changes) {
      T.PatchExact(contents, run);
      if ValuesClean(changes) {
        T.PatchTheorem(contents, run);
      }
    }
  }
}
