/** From entries back to text: the file the editor writes, read again by the same loader. */
module IniTheorem {
  import opened Text
  import opened IniLine
  import opened IniSpec
  import opened IniPatch

  // ----- every line of the result reads as the editor means it -----

  ghost predicate Sound(e: Entry) {
    NoNewline(e.text) && e.meaning == Read(e.text)
  }

  ghost predicate AllSound(es: seq<Entry>) {
    forall e :: e in es ==> Sound(e)
  }

  lemma EntriesSound(texts: seq<string>)
    requires AllNoNewline(texts)
    ensures AllSound(Entries(texts))
  {
  }

  lemma SoundEntriesReload(es: seq<Entry>)
    requires AllSound(es)
    ensures AllNoNewline(Texts(es)) && Entries(Texts(es)) == es
  {
    forall i | 0 <= i < |es| ensures NoNewline(Texts(es)[i]) && Entries(Texts(es))[i] == es[i] {
      assert es[i] in es;
    }
  }

  lemma SoundNewValue(e: Entry, value: string)
    requires Sound(e) && e.meaning.Assign? && IsClean(value)
    ensures var m := e.meaning; Sound(Entry(m.stem + value, Assign(m.stem, m.key, value))) && m.stem != ""
  {
    AssignIsClean(e.text);
    NewValueReads(e.text, value);
    assert forall c :: c in e.meaning.stem + value ==> c in e.meaning.stem || c in value;
  }

  lemma SoundAdded(key: string, value: string)
    requires IsKeyName(key) && IsClean(value)
    ensures Sound(Added(key, value)) && Added(key, value).text != ""
  {
    hide Read, IsTrimmed;
    OptionLineReads(key, value);
    assert forall c :: c in key ==> c != '\n';
    assert forall c :: c in OptionStem(key) + value ==> c in key || c in " = " || c in value;
  }

  lemma SoundHeader(section: string)
    requires IsHeaderName(section)
    ensures Sound(Entry(HeaderLine(section), Header(section))) && HeaderLine(section) != ""
  {
    HeaderLineReads(section);
  }

  lemma SoundEmpty()
    ensures Sound(Entry("", Other))
  {
    BlankReads("");
  }

  lemma SoundPassOne(doc: seq<Entry>, changes: map<string, string>)
    requires AllSound(doc) && ValuesClean(changes)
    ensures AllSound(PassOne(doc, changes))
    ensures forall i :: 0 <= i < |doc| && doc[i].text != "" ==> PassOne(doc, changes)[i].text != ""
  {
    forall i | 0 <= i < |doc|
      ensures Sound(PassOne(doc, changes)[i])
      ensures doc[i].text != "" ==> PassOne(doc, changes)[i].text != ""
    {
      assert doc[i] in doc;
      if doc[i].meaning.Assign? && KeyAt(doc, i) in changes {
        SoundNewValue(doc[i], changes[KeyAt(doc, i)]);
      }
    }
  }

  // ----- a run that can be written -----

  ghost predicate Writable(p: Patch) {
    && p.Valid()
    && AllSound(p.doc)
    && ValuesClean(p.changes)
    && KeysFit(p.doc, p.changes)
  }

  lemma SlotsFit(p: Patch)
    requires p.Valid() && KeysFit(p.doc, p.changes)
    ensures p.Sized()
    ensures forall k :: k in p.order ==> SlotFits(p.doc, k, p.slots[k])
  {
    forall k | k in p.order
      ensures k in p.changes && k in p.slots && SlotFits(p.doc, k, p.slots[k])
    {
      assert k in Remaining(p.doc, p.changes);
      assert KeyFits(p.doc, k);
    }
  }

  lemma SectionsFit(p: Patch)
    requires p.Valid() && KeysFit(p.doc, p.changes)
    ensures forall s :: s in p.sections ==> s in p.at && (p.at[s] < 0 ==> IsHeaderName(s))
  {
    SlotsFit(p);
    forall s | s in p.sections ensures s in p.at && (p.at[s] < 0 ==> IsHeaderName(s)) {
      var k :| k in p.slots && p.slots[k].section == s;
      assert k in p.order;
      assert p.at[s] == InsertAt(p.doc, p.out, s);
    }
  }

  lemma WritableIsReady(p: Patch)
    requires Writable(p)
    ensures Ready(p)
  {
    SlotsFit(p);
    SoundPassOne(p.doc, p.changes);
    forall j | 0 <= j < |p.doc| && IsBlank(p.out[j].text) ensures p.doc[j].meaning.Other? {
      assert p.out[j] in p.out;
      BlankReads(p.out[j].text);
    }
    forall s | s in p.sections
      ensures -1 <= p.at[s] <= |p.doc| && (p.at[s] >= 0 ==> SectionAfter("", p.doc[..p.at[s]]) == s)
    {
      assert p.at[s] == InsertAt(p.doc, p.out, s);
      if p.at[s] >= 0 {
        InsertPoint(p.doc, p.out, s);
      }
    }
    assert forall k :: k in p.order ==> k in Remaining(p.doc, p.changes);
    forall k | k in p.order ensures p.slots[k].section in p.sections {
      assert k in p.slots;
    }
  }

  ghost predicate GoodTail(es: seq<Entry>) {
    AllSound(es) && (es != [] ==> es[|es| - 1].text != "")
  }

  lemma GoodConcat(a: seq<Entry>, b: seq<Entry>)
    requires AllSound(a) && GoodTail(b)
    ensures AllSound(a + b)
    ensures b != [] || GoodTail(a) ==> GoodTail(a + b)
  {
  }

  lemma {:induction false} GroupGood(section: string, order: seq<string>, slots: map<string, Slot>,
                                     changes: map<string, string>)
    requires forall k :: k in order ==> k in changes && k in slots
    requires forall k :: k in order ==>
        Sound(Added(slots[k].key, changes[k])) && Added(slots[k].key, changes[k]).text != ""
    ensures GoodTail(Group(section, order, slots, changes))
  {
    hide Sound;
    if order == [] {
    } else {
      var k := order[|order| - 1];
      GroupGood(section, order[..|order| - 1], slots, changes);
      assert k in order;
      GoodConcat(Group(section, order[..|order| - 1], slots, changes), [Added(slots[k].key, changes[k])]);
    }
  }

  /** The pieces the result is assembled from. */
  ghost predicate GoodPieces(p: Patch) {
    && p.Sized()
    && AllSound(p.out)
    && (forall i :: 0 <= i < |p.doc| && p.doc[i].text != "" ==> p.out[i].text != "")
    && (forall s :: s in p.sections ==> GoodTail(Group(s, p.order, p.slots, p.changes)))
    && (forall s :: s in p.sections && p.at[s] < 0 ==> Sound(Entry(HeaderLine(s), Header(s))))
    && Sound(Entry("", Other))
  }

  lemma WritableHasGoodPieces(p: Patch)
    requires Writable(p)
    ensures GoodPieces(p)
  {
    SlotsFit(p);
    SectionsFit(p);
    SoundPassOne(p.doc, p.changes);
    SoundEmpty();
    forall k | k in p.order
      ensures Sound(Added(p.slots[k].key, p.changes[k])) && Added(p.slots[k].key, p.changes[k]).text != ""
    {
      SoundAdded(p.slots[k].key, p.changes[k]);
    }
    forall s | s in p.sections ensures GoodTail(Group(s, p.order, p.slots, p.changes)) {
      GroupGood(s, p.order, p.slots, p.changes);
    }
    forall s | s in p.sections && p.at[s] < 0 ensures Sound(Entry(HeaderLine(s), Header(s))) {
      SoundHeader(s);
    }
  }

  lemma {:induction false} InsertedGood(p: Patch, i: int, m: nat)
    requires GoodPieces(p) && m <= |p.sections|
    ensures GoodTail(p.Inserted(i, m))
  {
    hide Sound;
    if m == 0 {
    } else {
      InsertedGood(p, i, m - 1);
      GoodConcat(p.Inserted(i, m - 1), Group(p.sections[m - 1], p.order, p.slots, p.changes));
    }
  }

  lemma {:induction false} AppendedGood(p: Patch, m: nat)
    requires GoodPieces(p) && m <= |p.sections|
    ensures GoodTail(p.Appended(m))
  {
    hide Sound;
    if m == 0 {
    } else {
      var s, before := p.sections[m - 1], p.Appended(m - 1);
      AppendedGood(p, m - 1);
      if p.at[s] < 0 {
        var header := [Entry(HeaderLine(s), Header(s))];
        GoodConcat(header, Group(s, p.order, p.slots, p.changes));
        GoodConcat(p.Gap(before), p.NewSection(s));
        GoodConcat(before, p.Gap(before) + p.NewSection(s));
      }
    }
  }

  lemma {:induction false} RebuiltGood(p: Patch, i: nat)
    requires GoodPieces(p) && i <= |p.doc|
    ensures AllSound(p.Rebuilt(i))
    ensures i > 0 && p.doc[i - 1].text != "" ==> GoodTail(p.Rebuilt(i))
  {
    hide Sound, Group, Patch.Inserted, Patch.Appended;
    if i == 0 {
    } else {
      RebuiltGood(p, i - 1);
      InsertedGood(p, i - 1, |p.sections|);
      GoodConcat(p.Rebuilt(i - 1), p.Inserted(i - 1, |p.sections|));
      assert p.out[i - 1] in p.out;
    }
  }

  lemma ResultGood(p: Patch)
    requires Writable(p)
    ensures p.Sized() && AllSound(p.Result())
    ensures p.doc != [] && p.doc[|p.doc| - 1].text != "" ==> p.Result() != [] && GoodTail(p.Result())
  {
    WritableHasGoodPieces(p);
    var n, m := |p.doc|, |p.sections|;
    RebuiltGood(p, n);
    InsertedGood(p, n, m);
    AppendedGood(p, m);
    GoodConcat(p.Rebuilt(n), p.Inserted(n, m));
    GoodConcat(p.Rebuilt(n) + p.Inserted(n, m), p.Appended(m));
  }

  // ----- the theorem -----

  /** The text patched() returns. */
  ghost function PatchText(contents: string, p: Patch): string
    requires p.Sized()
  {
    Unlines(Texts(p.Result()), EndsWithNewline(contents))
  }

  ghost predicate RunOn(contents: string, p: Patch) {
    p.Valid() && p.doc == Entries(Lines(contents)) && KeysFit(p.doc, p.changes)
  }

  lemma LastLineNonEmpty(contents: string)
    requires !EndsWithNewline(contents)
    ensures Lines(contents)[|Lines(contents)| - 1] != ""
  {
    var lines := Lines(contents);
    var last := |lines| - 1;
    if lines[last] == "" {
      JoinSplit(contents);
      assert lines == lines[..last] + [""];
      JoinEndsInNewline(lines);
    }
  }

  lemma {:induction false} JoinEndsInNewline(lines: seq<string>)
    requires lines != [] && lines[|lines| - 1] == ""
    ensures EndsWithNewline(Join(lines))
  {
    if |lines| == 1 {
    } else {
      JoinEndsInNewline(lines[1..]);
    }
  }

  /** Entries written as text are read back as they were. */
  lemma Reload(es: seq<Entry>, newlineAtEnd: bool)
    requires AllSound(es)
    requires newlineAtEnd || (es != [] && es[|es| - 1].text != "")
    ensures ParseValues(Unlines(Texts(es), newlineAtEnd)) == ValuesOf("", es)
  {
    hide Sound, Read, Split, Join, ValuesOf;
    SoundEntriesReload(es);
    LinesOfUnlines(Texts(es), newlineAtEnd);
    if Texts(es) == [""] {
      OneEmptyLine(es);
    }
  }

  /**
   * Reading the written file gives the old values overridden by every change, except the changes
   * of options that several lines of the file assign; those options keep their old value.
   */
  lemma PatchTheorem(contents: string, p: Patch)
    requires RunOn(contents, p) && ValuesClean(p.changes)
    ensures p.Sized()
    ensures ParseValues(PatchText(contents, p)) == ParseValues(contents) + (p.changes - Repeated(p.doc))
  {
    EntriesSound(Lines(contents));
    WritableIsReady(p);
    ResultGood(p);
    ResultReads(p);
    if !EndsWithNewline(contents) {
      LastLineNonEmpty(contents);
    }
    Reload(p.Result(), EndsWithNewline(contents));
  }

  lemma OneEmptyLine(es: seq<Entry>)
    requires AllSound(es) && Texts(es) == [""]
    ensures ValuesOf("", es) == ValuesOf("", Entries([]))
  {
    assert |es| == 1 && es[0].text == Texts(es)[0];
    assert es[0] in es;
    BlankReads("");
    assert es[..0] == [];
  }

  lemma {:induction false} EntryValuesClean(section: string, es: seq<Entry>)
    requires AllSound(es)
    ensures ValuesClean(ValuesOf(section, es))
  {
    if es == [] {
    } else {
      var last := es[|es| - 1];
      assert last in es;
      EntryValuesClean(section, es[..|es| - 1]);
      if last.meaning.Assign? {
        AssignIsClean(last.text);
      }
    }
  }

  lemma ParsedValuesClean(contents: string)
    ensures ValuesClean(ParseValues(contents))
  {
    EntriesSound(Lines(contents));
    EntryValuesClean("", Entries(Lines(contents)));
  }

  /** The save does exactly what was asked if and only if these hold of the request. */
  ghost predicate Honoured(contents: string, changes: map<string, string>) {
    && ValuesClean(changes)
    && forall k :: k in changes && k in Repeated(Entries(Lines(contents))) ==> changes[k] == ParseValues(contents)[k]
  }

  lemma PatchExact(contents: string, p: Patch)
    requires RunOn(contents, p)
    ensures p.Sized()
    ensures ParseValues(PatchText(contents, p)) == ParseValues(contents) + p.changes
            <==> Honoured(contents, p.changes)
  {
    hide Read, Lines, ValuesOf, Unlines, Texts, IsTrimmed, Count;
    SlotsFit(p);
    var before, after := ParseValues(contents), ParseValues(PatchText(contents, p));
    var wanted := before + p.changes;
    if after == wanted {
      ParsedValuesClean(PatchText(contents, p));
      forall k | k in p.changes ensures IsClean(p.changes[k]) {
        assert k in wanted && wanted[k] == p.changes[k];
      }
    }
    if ValuesClean(p.changes) {
      PatchTheorem(contents, p);
      var repeated := Repeated(p.doc);
      assert after == before + (p.changes - repeated);
      forall k | k in p.changes && k in repeated ensures after[k] == before[k] && wanted[k] == p.changes[k] {
      }
    }
  }
}
