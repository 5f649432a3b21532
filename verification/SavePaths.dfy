/** The two ways ConfigStore saves, writing directly and through `secureEye set`, give files that mean the same. */
module SavePaths {
  import opened Text
  import opened IniLine
  import opened IniSpec
  import opened ConfigSet
  import opened SetMeaning
  import opened Options
  import P = IniPatch
  import T = IniTheorem
  import L = IniLocality

  // ----- what the GUI asks the script for -----

  /** The name/value pairs of the pending changes, visited in some order. */
  function Arguments(order: seq<string>, changes: map<string, string>): (r: seq<string>)
    requires forall k :: k in order ==> k in changes
    ensures |r| == 2 * |order|
  {
    if order == [] then []
    else
      var k := order[|order| - 1];
      Arguments(order[..|order| - 1], changes) + [SlotOf(k).key, changes[k]]
  }

  /** No two pending options share the part of their name the script sees. */
  predicate DistinctKeys(changes: map<string, string>) {
    forall a, b :: a in changes && b in changes && SlotOf(a).key == SlotOf(b).key ==> a == b
  }

  /** The request names exactly the changed options, each with its value. */
  ghost predicate Requests(names: seq<string>, updates: map<string, string>, changes: map<string, string>) {
    && (forall n :: n in names <==> n in updates)
    && (forall k :: k in changes ==> SlotOf(k).key in updates && updates[SlotOf(k).key] == changes[k])
    && (forall n :: n in updates ==> exists k :: k in changes && SlotOf(k).key == n)
  }

  lemma {:induction false} UpdatesPrefix(a: seq<string>, b: seq<string>, n: nat)
    requires 2 * n <= |a| && a <= b
    ensures Updates(b, n) == Updates(a, n)
  {
    if n == 0 {
    } else {
      UpdatesPrefix(a, b, n - 1);
      assert b[2 * n - 2] == a[2 * n - 2] && b[2 * n - 1] == a[2 * n - 1];
    }
  }

  lemma {:induction false} ArgumentsUpdate(order: seq<string>, changes: map<string, string>)
    requires (forall k :: k in order ==> k in changes) && DistinctKeys(changes)
    ensures var updates := Updates(Arguments(order, changes), |order|);
            && (forall k :: k in order ==> SlotOf(k).key in updates && updates[SlotOf(k).key] == changes[k])
            && (forall n :: n in updates ==> exists k :: k in order && SlotOf(k).key == n)
  {
    hide SlotOf;
    if order == [] {
    } else {
      var init, k := order[..|order| - 1], order[|order| - 1];
      ArgumentsUpdate(init, changes);
      UpdatesPrefix(Arguments(init, changes), Arguments(order, changes), |init|);
      assert order == init + [k];
      var updates := Updates(Arguments(order, changes), |order|);
      assert updates == Updates(Arguments(init, changes), |init|)[SlotOf(k).key := changes[k]];
    }
  }

  /** What the script makes of the request, whatever order the hash was visited in. */
  lemma RequestIsUnderstood(order: seq<string>, changes: map<string, string>)
    requires Enumerates(order, changes.Keys) && DistinctKeys(changes)
    ensures var arguments := Arguments(order, changes);
            Requests(Names(arguments, |order|), Updates(arguments, |order|), changes)
  {
    hide SlotOf;
    ArgumentsUpdate(order, changes);
    assert forall k :: k in changes ==> k in order;
  }

  // ----- files both writers understand -----

  /** Line i is the only line starting with the option's key and a space, and the only line assigning it. */
  ghost predicate IsOptionLine(doc: seq<Entry>, k: string, i: nat) {
    && i < |doc| && doc[i].meaning.Assign?
    && KeyAt(doc, i) == k && doc[i].meaning.key == SlotOf(k).key
    && SlotOf(k).key + " " <= doc[i].text
    && (forall j :: 0 <= j < |doc| && SlotOf(k).key + " " <= doc[j].text ==> j == i)
    && Count(doc, |doc|, k) == 1
  }

  ghost predicate OneLineEach(doc: seq<Entry>, changes: map<string, string>) {
    forall k :: k in changes ==> exists i: nat :: IsOptionLine(doc, k, i)
  }

  lemma {:induction false} CountedLine(doc: seq<Entry>, n: nat, i: nat, k: string)
    requires i < n <= |doc| && doc[i].meaning.Assign? && KeyAt(doc, i) == k
    ensures Count(doc, n, k) >= Count(doc, i, k) + 1
  {
    if i == n - 1 {
    } else {
      CountedLine(doc, n - 1, i, k);
    }
  }

  /** The option's line is the one pass one rewrites, and no other line assigns it. */
  lemma OptionLineIsFirst(doc: seq<Entry>, k: string, i: nat)
    requires IsOptionLine(doc, k, i)
    ensures k !in ValuesOf("", doc[..i])
    ensures forall j :: 0 <= j < |doc| && doc[j].meaning.Assign? && KeyAt(doc, j) == k ==> j == i
  {
    CountedLine(doc, |doc|, i, k);
    P.CountZero(doc, i, k);
    forall j | 0 <= j < |doc| && doc[j].meaning.Assign? && KeyAt(doc, j) == k ensures j == i {
      if j < i {
        P.CountZero(doc, i, k);
        P.KeyAtIsRead(doc, j, i);
      } else if i < j {
        CountedLine(doc, j, i, k);
        CountedLine(doc, |doc|, j, k);
      }
    }
  }

  ghost predicate Agreed(doc: seq<Entry>, names: seq<string>, updates: map<string, string>,
                         changes: map<string, string>)
  {
    Requests(names, updates, changes) && OneLineEach(doc, changes)
  }

  /** A line `set` rewrites is the line of a changed option. */
  lemma NamedLineIsOptionLine(doc: seq<Entry>, names: seq<string>, updates: map<string, string>,
                              changes: map<string, string>, i: nat)
    returns (k: string)
    requires Agreed(doc, names, updates, changes) && i < |doc| && OptionName(doc[i].text, names).Some?
    ensures k in changes && IsOptionLine(doc, k, i)
    ensures OptionName(doc[i].text, names) == Some(SlotOf(k).key) && updates[SlotOf(k).key] == changes[k]
  {
    hide SlotOf, SectionAfter, Count;
    var n := OptionName(doc[i].text, names).value;
    k :| k in changes && SlotOf(k).key == n;
    var j: nat :| IsOptionLine(doc, k, j);
    assert i == j;
  }

  ghost predicate Settable(contents: string, names: seq<string>, updates: map<string, string>,
                           changes: map<string, string>)
  {
    && Agreed(Entries(Lines(contents)), names, updates, changes)
    && ValuesClean(changes) && changes != map[]
    && forall n :: n in names ==> IsKeyName(n)
  }

  lemma SettableNames(contents: string, names: seq<string>, updates: map<string, string>, changes: map<string, string>)
    requires Settable(contents, names, updates, changes)
    ensures (forall n :: n in names ==> n in updates) && PlainNames(names)
    ensures Agreed(Entries(Lines(contents)), names, updates, changes)
  {
    hide Lines, OneLineEach, SlotOf;
    assert forall n, c :: n in names && c in n ==> KeyChar.Has(c);
  }

  // ----- exactly when the written file means what was asked -----

  /** Every edit is named by a section and a key without a slash. */
  predicate PlainlyNamed(changes: map<string, string>) {
    forall k :: k in changes ==> MapKey(SlotOf(k).section, SlotOf(k).key) == k && '/' !in SlotOf(k).key
  }

  /** The edit's last line is one the script rewrites, with this value, or has the value already. */
  predicate Lands(doc: seq<Entry>, updates: map<string, string>, slot: Slot, value: string) {
    slot.key in updates && Left(doc, updates, slot.section, slot.key, |doc|) == Some(value)
  }

  /** If the script rewrites the last line of an option nobody edits, the option has that value already. */
  predicate IsHarmless(doc: seq<Entry>, updates: map<string, string>, changes: map<string, string>, key: string, i: nat)
    requires i < |doc| && key in updates
  {
    var section := SectionAfter("", doc[..i]);
    IsSpaced(doc[i], key) && LastLine(doc, section, key, |doc|) == i && MapKey(section, key) !in changes ==>
      Get(ValuesOf("", doc), MapKey(section, key)) == Some(Trimmed(updates[key]))
  }

  ghost predicate LinesFit(doc: seq<Entry>, names: seq<string>, updates: map<string, string>,
                           changes: map<string, string>)
  {
    && (forall k :: k in changes ==> Lands(doc, updates, SlotOf(k), changes[k]))
    && (forall i, n :: 0 <= i < |doc| && n in names && n in updates ==> IsHarmless(doc, updates, changes, n, i))
  }

  lemma SameValues(a: map<string, string>, b: map<string, string>)
    requires forall k :: Get(a, k) == Get(b, k)
    ensures a == b
  {
    forall k ensures k in a <==> k in b {
      assert Get(a, k) == Get(b, k);
    }
    forall k | k in a ensures a[k] == b[k] {
      assert Get(a, k) == Get(b, k);
    }
  }

  /** The option is some section's option of a requested key. */
  ghost predicate IsRequested(names: seq<string>, k: string) {
    exists s, n :: n in names && MapKey(s, n) == k
  }

  /** What the written file says of one option, when its lines fit. */
  lemma FittingValue(doc: seq<Entry>, names: seq<string>, updates: map<string, string>,
                     changes: map<string, string>, k: string)
    requires T.AllSound(doc) && Proper(names, updates) && PlainlyNamed(changes)
    requires forall c :: c in changes ==> SlotOf(c).key in names
    requires LinesFit(doc, names, updates, changes)
    ensures Get(ValuesOf("", SetEntries(doc, names, updates)), k) == Get(ValuesOf("", doc) + changes, k)
  {
    hide SlotOf, ValuesOf, MapKey, T.Sound, IsKeyName, SectionAfter, IsSpaced;
    var w, n := SetEntries(doc, names, updates), |doc|;
    assert w[..n] == w && doc[..n] == doc;
    if IsRequested(names, k) {
      var section, key :| key in names && MapKey(section, key) == k;
      KeyHasNoSlash(key);
      NamedValue(doc, names, updates, section, key, n);
      OldValue(doc, section, key, n);
      if k in changes {
        MapKeyInjective(section, key, SlotOf(k).section, SlotOf(k).key);
        assert Lands(doc, updates, SlotOf(k), changes[k]);
      } else {
        var i := LastLine(doc, section, key, n);
        if i >= 0 {
          assert IsHarmless(doc, updates, changes, key, i);
        }
      }
    } else {
      OtherValue(doc, names, updates, k, n);
      assert k in changes ==> SlotOf(k).key in names && MapKey(SlotOf(k).section, SlotOf(k).key) == k;
    }
  }

  lemma LinesMustFit(doc: seq<Entry>, names: seq<string>, updates: map<string, string>, changes: map<string, string>)
    requires T.AllSound(doc) && Proper(names, updates) && PlainlyNamed(changes)
    requires forall c :: c in changes ==> SlotOf(c).key in names
    requires ValuesOf("", SetEntries(doc, names, updates)) == ValuesOf("", doc) + changes
    ensures LinesFit(doc, names, updates, changes)
  {
    hide SlotOf, ValuesOf, MapKey, T.Sound, IsKeyName, SectionAfter, IsSpaced, LastLine;
    var w, n := SetEntries(doc, names, updates), |doc|;
    assert w[..n] == w && doc[..n] == doc;
    forall k | k in changes ensures Lands(doc, updates, SlotOf(k), changes[k]) {
      NamedValue(doc, names, updates, SlotOf(k).section, SlotOf(k).key, n);
    }
    forall i, key | 0 <= i < n && key in names && key in updates ensures IsHarmless(doc, updates, changes, key, i) {
      NamedValue(doc, names, updates, SectionAfter("", doc[..i]), key, n);
    }
  }

  /** The written entries mean the old values overridden by the changes if and only if the lines fit. */
  lemma EntriesExact(doc: seq<Entry>, names: seq<string>, updates: map<string, string>, changes: map<string, string>)
    requires T.AllSound(doc) && Proper(names, updates) && PlainlyNamed(changes)
    requires forall c :: c in changes ==> SlotOf(c).key in names
    ensures ValuesOf("", SetEntries(doc, names, updates)) == ValuesOf("", doc) + changes
            <==> LinesFit(doc, names, updates, changes)
  {
    hide SlotOf, ValuesOf, MapKey, T.AllSound, IsKeyName, IsClean, LinesFit, PlainlyNamed, SetEntries, Get;
    if LinesFit(doc, names, updates, changes) {
      forall k ensures Get(ValuesOf("", SetEntries(doc, names, updates)), k) == Get(ValuesOf("", doc) + changes, k) {
        FittingValue(doc, names, updates, changes, k);
      }
      SameValues(ValuesOf("", SetEntries(doc, names, updates)), ValuesOf("", doc) + changes);
    }
    if ValuesOf("", SetEntries(doc, names, updates)) == ValuesOf("", doc) + changes {
      LinesMustFit(doc, names, updates, changes);
    }
  }

  // ----- requests that are accepted -----

  /** The names are those of the edits, and each goes with the value of one of them. */
  ghost predicate Asks(names: seq<string>, updates: map<string, string>, changes: map<string, string>) {
    && (forall n :: n in names <==> n in updates)
    && (forall k :: k in changes ==> SlotOf(k).key in names)
    && (forall n :: n in names ==> exists k :: k in changes && SlotOf(k).key == n && updates[n] == changes[k])
  }

  /** Every update comes from an edit, also when edits share a key. */
  lemma {:induction false} ArgumentsAsk(order: seq<string>, changes: map<string, string>)
    requires forall k :: k in order ==> k in changes
    ensures var updates := Updates(Arguments(order, changes), |order|);
            && (forall k :: k in order ==> SlotOf(k).key in updates)
            && (forall n :: n in updates ==> exists k :: k in order && SlotOf(k).key == n && updates[n] == changes[k])
  {
    hide SlotOf;
    if order == [] {
    } else {
      var init, k := order[..|order| - 1], order[|order| - 1];
      ArgumentsAsk(init, changes);
      UpdatesPrefix(Arguments(init, changes), Arguments(order, changes), |init|);
      assert order == init + [k];
      var before, updates := Updates(Arguments(init, changes), |init|), Updates(Arguments(order, changes), |order|);
      assert updates == before[SlotOf(k).key := changes[k]];
      forall n | n in updates ensures exists c :: c in order && SlotOf(c).key == n && updates[n] == changes[c] {
        if n == SlotOf(k).key {
          assert k in order;
        } else {
          var c :| c in init && SlotOf(c).key == n && before[n] == changes[c];
          assert c in order;
        }
      }
    }
  }

  lemma RequestAsks(order: seq<string>, changes: map<string, string>)
    requires Enumerates(order, changes.Keys)
    ensures var arguments := Arguments(order, changes);
            Asks(Names(arguments, |order|), Updates(arguments, |order|), changes)
  {
    hide SlotOf;
    ArgumentsAsk(order, changes);
    assert forall k :: k in changes ==> k in order;
  }

  /** The text the script leaves for the edits, visited in this order. */
  function Written(contents: string, order: seq<string>, changes: map<string, string>): string
    requires forall k :: k in order ==> k in changes
  {
    var arguments := Arguments(order, changes);
    Concat(SetLines(ReadLines(contents), Names(arguments, |order|), Updates(arguments, |order|)))
  }

  /** The request does exactly what was asked if and only if these hold of it and of the file's lines. */
  ghost predicate SetHonours(contents: string, order: seq<string>, changes: map<string, string>)
    requires forall k :: k in order ==> k in changes
  {
    var names, updates := Names(Arguments(order, changes), |order|), Updates(Arguments(order, changes), |order|);
    NamesKeys(order, changes) && LinesFit(Entries(Lines(contents)), names, updates, changes)
  }

  /** The names are keys the loader's pattern knows. */
  predicate NamesKeys(order: seq<string>, changes: map<string, string>)
    requires forall k :: k in order ==> k in changes
  {
    forall n :: n in Names(Arguments(order, changes), |order|) ==> IsKeyName(n)
  }

  lemma ProperRequest(contents: string, order: seq<string>, changes: map<string, string>)
    requires Enumerates(order, changes.Keys) && NamesKeys(order, changes)
    requires Refusal(contents, Arguments(order, changes)).None?
    ensures Proper(Names(Arguments(order, changes), |order|), Updates(Arguments(order, changes), |order|))
    ensures forall c :: c in changes ==> SlotOf(c).key in Names(Arguments(order, changes), |order|)
  {
    hide SlotOf, IsKeyName, Names, Updates, Refusal;
    RequestAsks(order, changes);
    AcceptedIsOneLiners(contents, Arguments(order, changes));
  }

  /** The written file means its entries. */
  lemma WrittenReads(contents: string, order: seq<string>, changes: map<string, string>)
    requires Enumerates(order, changes.Keys) && NamesKeys(order, changes)
    requires Refusal(contents, Arguments(order, changes)).None?
    ensures var arguments := Arguments(order, changes);
            var names, updates := Names(arguments, |order|), Updates(arguments, |order|);
            && Proper(names, updates)
            && ParseValues(Written(contents, order, changes))
                 == ValuesOf("", SetEntries(Entries(Lines(contents)), names, updates))
            && T.AllSound(Entries(Lines(contents)))
  {
    hide SlotOf, Names, Updates, Refusal, IsKeyName, Lines, ValuesOf, SetEntries, Concat, SetLines, ReadLines,
         T.AllSound, Proper, OptionName, OneLiners;
    var arguments := Arguments(order, changes);
    ProperRequest(contents, order, changes);
    AcceptedIsOneLiners(contents, arguments);
    var i := AcceptedLine(contents, arguments);
    SetReads(contents, Names(arguments, |order|), Updates(arguments, |order|), i);
    T.EntriesSound(Lines(contents));
  }

  /** An accepted request of keys means the old values overridden by some changes if and only if the lines fit those. */
  lemma WrittenExact(contents: string, order: seq<string>, changes: map<string, string>, part: map<string, string>)
    requires Enumerates(order, changes.Keys) && Refusal(contents, Arguments(order, changes)).None?
    requires NamesKeys(order, changes) && PlainlyNamed(part) && part.Keys <= changes.Keys
    ensures ParseValues(Written(contents, order, changes)) == ParseValues(contents) + part <==>
            LinesFit(Entries(Lines(contents)), Names(Arguments(order, changes), |order|),
                     Updates(Arguments(order, changes), |order|), part)
  {
    hide SlotOf, Names, Updates, Refusal, LinesFit, PlainlyNamed, NamesKeys, Lines, ValuesOf, SetEntries, Written,
         T.AllSound, Proper;
    ProperRequest(contents, order, changes);
    WrittenReads(contents, order, changes);
    EntriesExact(Entries(Lines(contents)), Names(Arguments(order, changes), |order|),
                 Updates(Arguments(order, changes), |order|), part);
    ParseIsEntries(contents);
  }

  /** What the script leaves of an option: what its last line says if its key is asked for, else the old value. */
  function Remains(contents: string, order: seq<string>, changes: map<string, string>, section: string, key: string):
    Option<string>
    requires forall k :: k in order ==> k in changes
  {
    var names, updates := Names(Arguments(order, changes), |order|), Updates(Arguments(order, changes), |order|);
    var doc := Entries(Lines(contents));
    if key in names then Left(doc, updates, section, key, |doc|) else Get(ParseValues(contents), MapKey(section, key))
  }

  /** Each option of the written file, also when that is not what was asked. */
  lemma WrittenValue(contents: string, order: seq<string>, changes: map<string, string>, section: string, key: string)
    requires Enumerates(order, changes.Keys) && NamesKeys(order, changes) && IsKeyName(key)
    requires Refusal(contents, Arguments(order, changes)).None?
    ensures Get(ParseValues(Written(contents, order, changes)), MapKey(section, key))
         == Remains(contents, order, changes, section, key)
  {
    hide SlotOf, Names, Updates, Refusal, Lines, ValuesOf, SetEntries, Written, T.AllSound, MapKey, Left, IsKeyName;
    var names, updates := Names(Arguments(order, changes), |order|), Updates(Arguments(order, changes), |order|);
    var doc := Entries(Lines(contents));
    WrittenReads(contents, order, changes);
    var w := SetEntries(doc, names, updates);
    assert w[..|doc|] == w && doc[..|doc|] == doc;
    ParseIsEntries(contents);
    if key in names {
      NamedValue(doc, names, updates, section, key, |doc|);
    } else {
      OtherKeys(names, section, key);
      OtherValue(doc, names, updates, MapKey(section, key), |doc|);
    }
  }

  lemma OtherKeys(names: seq<string>, section: string, key: string)
    requires IsKeyName(key) && key !in names && forall n :: n in names ==> IsKeyName(n)
    ensures forall s, m :: m in names ==> MapKey(s, m) != MapKey(section, key)
  {
    hide IsKeyName, MapKey;
    forall s, m | m in names ensures MapKey(s, m) != MapKey(section, key) {
      KeyHasNoSlash(m);
      KeyHasNoSlash(key);
      if MapKey(s, m) == MapKey(section, key) {
        MapKeyInjective(s, m, section, key);
      }
    }
  }

  lemma {:induction false} EntryKey(es: seq<Entry>, k: string) returns (section: string, key: string)
    requires T.AllSound(es) && k in ValuesOf("", es)
    ensures k == MapKey(section, key) && IsKeyName(key)
  {
    hide T.Sound, IsKeyName, MapKey;
    var init, last := es[..|es| - 1], es[|es| - 1];
    assert last in es;
    if last.meaning.Assign? && k == MapKey(SectionAfter("", init), last.meaning.key) {
      section, key := SectionAfter("", init), last.meaning.key;
      SoundKey(last);
    } else {
      section, key := EntryKey(init, k);
    }
  }

  /** Whatever a file assigns is named by a section and a key of the pattern's characters. */
  lemma ParsedKey(contents: string, k: string)
    requires k in ParseValues(contents) && MapKey(SlotOf(k).section, SlotOf(k).key) == k && '/' !in SlotOf(k).key
    ensures IsKeyName(SlotOf(k).key)
  {
    hide SlotOf, Lines, ValuesOf, IsKeyName, MapKey;
    T.EntriesSound(Lines(contents));
    var section, key := EntryKey(Entries(Lines(contents)), k);
    KeyHasNoSlash(key);
    MapKeyInjective(section, key, SlotOf(k).section, SlotOf(k).key);
  }

  lemma HonouredRequest(contents: string, order: seq<string>, changes: map<string, string>)
    requires Enumerates(order, changes.Keys) && PlainlyNamed(changes)
    requires ParseValues(Written(contents, order, changes)) == ParseValues(contents) + changes
    ensures NamesKeys(order, changes)
  {
    hide SlotOf, Names, Updates, Lines, Written, ParseValues, IsKeyName, MapKey;
    var after := Written(contents, order, changes);
    RequestAsks(order, changes);
    forall k | k in changes ensures IsKeyName(SlotOf(k).key) {
      assert k in ParseValues(after) && ParseValues(after)[k] == changes[k];
      ParsedKey(after, k);
    }
  }

  /**
   * The script's file means the old values overridden by the edits if and only if the keys are of the
   * pattern's characters, each edit's last line is rewritten or has the value already (so the value is
   * trimmed), and no other section's option of an edited key has its last line rewritten to a different
   * value.
   */
  lemma SetExact(contents: string, order: seq<string>, changes: map<string, string>)
    requires Enumerates(order, changes.Keys) && PlainlyNamed(changes)
    requires Refusal(contents, Arguments(order, changes)).None?
    ensures ParseValues(Written(contents, order, changes)) == ParseValues(contents) + changes <==>
            SetHonours(contents, order, changes)
  {
    hide SlotOf, Names, Updates, Refusal, LinesFit, PlainlyNamed, Lines, Written, ParseValues, NamesKeys, MapKey;
    if ParseValues(Written(contents, order, changes)) == ParseValues(contents) + changes {
      HonouredRequest(contents, order, changes);
    }
    if NamesKeys(order, changes) {
      WrittenExact(contents, order, changes, changes);
    }
  }

  /**
   * Exactly when the two writers agree: for an accepted request with trimmed single-line values the direct
   * save leaves the old values overridden by the edits of options no two lines assign, so the files mean
   * the same if and only if the lines fit those edits.
   */
  lemma WritersAgreeExactly(contents: string, order: seq<string>, changes: map<string, string>, run: Patch)
    requires Enumerates(order, changes.Keys) && PlainlyNamed(changes) && ValuesClean(changes)
    requires Refusal(contents, Arguments(order, changes)).None?
    requires T.RunOn(contents, run) && run.changes == changes
    ensures run.Sized()
    ensures ParseValues(Written(contents, order, changes)) == ParseValues(T.PatchText(contents, run)) <==>
            LinesFit(Entries(Lines(contents)), Names(Arguments(order, changes), |order|),
                     Updates(Arguments(order, changes), |order|), changes - Repeated(Entries(Lines(contents))))
  {
    hide SlotOf, Names, Updates, Refusal, LinesFit, Lines, Written, ParseValues, IsKeyName, IsClean, MapKey,
         Patch.Valid, T.PatchText, Repeated, KeyFits;
    T.PatchTheorem(contents, run);
    FittingKeys(contents, order, changes);
    WrittenExact(contents, order, changes, changes - Repeated(run.doc));
  }

  lemma FittingKeys(contents: string, order: seq<string>, changes: map<string, string>)
    requires Enumerates(order, changes.Keys) && PlainlyNamed(changes) && KeysFit(Entries(Lines(contents)), changes)
    ensures NamesKeys(order, changes)
  {
    hide SlotOf, Names, Updates, Lines, IsKeyName, MapKey, ValuesOf, EndOf, IsHeaderName;
    RequestAsks(order, changes);
    ParseIsEntries(contents);
    forall k | k in changes ensures IsKeyName(SlotOf(k).key) {
      assert KeyFits(Entries(Lines(contents)), k);
      if k in ParseValues(contents) {
        ParsedKey(contents, k);
      }
    }
  }

  lemma ParseIsEntries(contents: string)
    ensures ParseValues(contents) == ValuesOf("", Entries(Lines(contents)))
  {
  }

  /** The option's own line is its last, and is rewritten. */
  lemma OptionLineLands(doc: seq<Entry>, updates: map<string, string>, k: string, i: nat)
    requires T.AllSound(doc) && IsOptionLine(doc, k, i)
    requires SlotOf(k).key in updates && IsTrimmed(updates[SlotOf(k).key])
    ensures MapKey(SlotOf(k).section, SlotOf(k).key) == k && '/' !in SlotOf(k).key
    ensures Lands(doc, updates, SlotOf(k), updates[SlotOf(k).key])
  {
    hide ValuesOf, FirstSlash, SectionAfter, Count, T.Sound;
    var key, section := SlotOf(k).key, SectionAfter("", doc[..i]);
    assert doc[i] in doc;
    SoundKey(doc[i]);
    KeyHasNoSlash(key);
    SlotOfMapKey(k, section, key);
    OptionLineIsFirst(doc, k, i);
    var last := LastLine(doc, section, key, |doc|);
    assert Touches(doc, i, section, key);
    assert last == i;
  }

  lemma SlotOfMapKey(k: string, section: string, key: string)
    requires k == MapKey(section, key) && SlotOf(k).key == key
    ensures SlotOf(k).section == section
  {
    assert |SlotOf(k).key| == |k| - FirstSlash(k) - 1;
    assert k[..|section|] == section;
  }

  lemma OptionLinesFit(doc: seq<Entry>, names: seq<string>, updates: map<string, string>, changes: map<string, string>)
    requires T.AllSound(doc) && Agreed(doc, names, updates, changes) && Proper(names, updates) && ValuesClean(changes)
    ensures PlainlyNamed(changes) && LinesFit(doc, names, updates, changes)
  {
    hide SlotOf, ValuesOf, SectionAfter, MapKey, T.AllSound, IsKeyName, IsOptionLine, LastLine, Lands;
    forall k | k in changes
      ensures MapKey(SlotOf(k).section, SlotOf(k).key) == k && '/' !in SlotOf(k).key
      ensures Lands(doc, updates, SlotOf(k), changes[k])
    {
      var i: nat :| IsOptionLine(doc, k, i);
      OptionLineLands(doc, updates, k, i);
    }
    forall i, n | 0 <= i < |doc| && n in names && n in updates ensures IsHarmless(doc, updates, changes, n, i) {
      if IsSpaced(doc[i], n) {
        NameOfSpacedLine(doc[i], names, updates, n);
        var k := NamedLineIsOptionLine(doc, names, updates, changes, i);
        OptionLineKey(doc, k, i);
      }
    }
  }

  lemma OptionLineKey(doc: seq<Entry>, k: string, i: nat)
    requires IsOptionLine(doc, k, i)
    ensures MapKey(SectionAfter("", doc[..i]), SlotOf(k).key) == k
  {
  }

  lemma RewrittenLine(contents: string, names: seq<string>, updates: map<string, string>, changes: map<string, string>)
    returns (i: nat)
    requires Settable(contents, names, updates, changes)
    ensures i < |Lines(contents)| && OptionName(Lines(contents)[i], names).Some?
  {
    hide Read, Lines, SectionAfter, SlotOf;
    var k :| k in changes;
    i :| IsOptionLine(Entries(Lines(contents)), k, i);
    assert SlotOf(k).key in names;
  }

  lemma SettableIsProper(contents: string, names: seq<string>, updates: map<string, string>,
                         changes: map<string, string>)
    requires Settable(contents, names, updates, changes)
    ensures Proper(names, updates) && forall c :: c in changes ==> SlotOf(c).key in names
  {
    hide Lines, OneLineEach, SlotOf, IsKeyName, IsTrimmed;
  }

  lemma SettableIsClean(contents: string, names: seq<string>, updates: map<string, string>,
                        changes: map<string, string>)
    requires Settable(contents, names, updates, changes)
    ensures ValuesClean(changes)
  {
  }

  /** With one line of the expected form each, the script's file means the old values overridden by the request. */
  lemma SetTheorem(contents: string, names: seq<string>, updates: map<string, string>, changes: map<string, string>)
    requires Settable(contents, names, updates, changes)
    ensures ParseValues(Concat(SetLines(ReadLines(contents), names, updates))) == ParseValues(contents) + changes
  {
    hide *;
    SettableNames(contents, names, updates, changes);
    SettableIsProper(contents, names, updates, changes);
    var doc := Entries(Lines(contents));
    T.EntriesSound(Lines(contents));
    ProperNamesArePlain(names, updates);
    SettableIsClean(contents, names, updates, changes);
    var i := RewrittenLine(contents, names, updates, changes);
    SetReads(contents, names, updates, i);
    OptionLinesFit(doc, names, updates, changes);
    EntriesExact(doc, names, updates, changes);
    ParseIsEntries(contents);
  }

  // ----- agreement -----

  /** Everything both writers need of a request. */
  ghost predicate Saveable(contents: string, changes: map<string, string>) {
    && changes != map[] && ValuesClean(changes)
    && (forall k :: k in changes ==> '\r' !in changes[k])
    && DistinctKeys(changes)
    && OneLineEach(Entries(Lines(contents)), changes)
  }

  lemma OptionKeys(contents: string, changes: map<string, string>)
    requires OneLineEach(Entries(Lines(contents)), changes)
    ensures forall k :: k in changes ==>
              IsKeyName(SlotOf(k).key) && k in ParseValues(contents) && k !in Repeated(Entries(Lines(contents)))
  {
    hide Lines, SlotOf, Read, ValuesOf, Repeated;
    var doc := Entries(Lines(contents));
    forall k | k in changes
      ensures IsKeyName(SlotOf(k).key) && k in ParseValues(contents) && k !in Repeated(doc)
    {
      var i: nat :| IsOptionLine(doc, k, i);
      OptionLineFacts(contents, k, i);
    }
  }

  lemma OptionLineFacts(contents: string, k: string, i: nat)
    requires IsOptionLine(Entries(Lines(contents)), k, i)
    ensures IsKeyName(SlotOf(k).key) && k in ParseValues(contents) && k !in Repeated(Entries(Lines(contents)))
  {
    hide Lines, SlotOf, Read;
    var doc := Entries(Lines(contents));
    AssignIsClean(doc[i].text);
    P.KeyAtIsRead(doc, i, |doc|);
    assert doc[..|doc|] == doc;
  }

  lemma RequestIsSettable(contents: string, changes: map<string, string>, names: seq<string>,
                          updates: map<string, string>)
    requires Saveable(contents, changes) && Requests(names, updates, changes)
    ensures Settable(contents, names, updates, changes)
  {
    hide SlotOf, Lines, Read, OneLineEach, ParseValues, Repeated;
    OptionKeys(contents, changes);
  }

  lemma RequestAccepted(contents: string, changes: map<string, string>, order: seq<string>)
    requires Saveable(contents, changes) && Enumerates(order, changes.Keys)
    ensures Refusal(contents, Arguments(order, changes)).None?
    ensures var arguments := Arguments(order, changes);
            Settable(contents, Names(arguments, |order|), Updates(arguments, |order|), changes)
  {
    hide Saveable, Requests, Settable, Refusal, Names, Updates, DistinctKeys;
    SaveableHasEdits(contents, changes, order);
    RequestIsUnderstood(order, changes);
    UnderstoodIsAccepted(contents, changes, order);
  }

  lemma UnderstoodIsAccepted(contents: string, changes: map<string, string>, order: seq<string>)
    requires Saveable(contents, changes) && |order| > 0 && forall k :: k in order ==> k in changes
    requires var arguments := Arguments(order, changes);
             Requests(Names(arguments, |order|), Updates(arguments, |order|), changes)
    ensures Refusal(contents, Arguments(order, changes)).None?
    ensures var arguments := Arguments(order, changes);
            Settable(contents, Names(arguments, |order|), Updates(arguments, |order|), changes)
  {
    hide SlotOf, Saveable, Fits, Settable, Refusal, Names, Updates, ReadLines;
    var arguments := Arguments(order, changes);
    assert |arguments| / 2 == |order|;
    hide Arguments;
    var names, updates := Names(arguments, |order|), Updates(arguments, |order|);
    RequestIsSettable(contents, changes, names, updates);
    AllNamesAccepted(contents, changes, names, updates);
    FitsIsAccepted(contents, arguments);
  }

  lemma SaveableHasEdits(contents: string, changes: map<string, string>, order: seq<string>)
    requires Saveable(contents, changes) && Enumerates(order, changes.Keys)
    ensures |order| > 0 && DistinctKeys(changes)
  {
    hide OneLineEach, DistinctKeys, IsClean;
    var k :| k in changes;
    assert k in order;
  }

  lemma AllNamesAccepted(contents: string, changes: map<string, string>, names: seq<string>,
                         updates: map<string, string>)
    requires Saveable(contents, changes) && Settable(contents, names, updates, changes)
    ensures Fits(ReadLines(contents), names, updates)
  {
    hide Saveable, Settable, HasLineBreak, IsFound, ReadLines, Agreed;
    SettableNames(contents, names, updates, changes);
    forall x | x in names ensures !HasLineBreak(updates[x]) && IsFound(x, ReadLines(contents), names) {
      NameAccepted(contents, changes, names, updates, x);
    }
  }

  lemma NameAccepted(contents: string, changes: map<string, string>, names: seq<string>, updates: map<string, string>,
                     x: string)
    requires Saveable(contents, changes) && Settable(contents, names, updates, changes) && x in names
    ensures !HasLineBreak(updates[x]) && IsFound(x, ReadLines(contents), names)
  {
    hide SlotOf, Read, IsOptionLine, OptionName, Lines;
    var doc := Entries(Lines(contents));
    SettableNames(contents, names, updates, changes);
    var k :| k in changes && SlotOf(k).key == x;
    var i: nat :| IsOptionLine(doc, k, i);
    NameFindsLine(doc, names, updates, changes, k, i);
    LineIsFound(contents, names, i);
  }

  lemma LineIsFound(contents: string, names: seq<string>, i: nat)
    requires i < |Lines(contents)| && OptionName(Lines(contents)[i], names).Some? && PlainNames(names)
    ensures IsFound(OptionName(Lines(contents)[i], names).value, ReadLines(contents), names)
  {
    hide OptionName, Lines, EndsWithNewline;
    var lines, read := Lines(contents), ReadLines(contents);
    var end := if i < |lines| - 1 || EndsWithNewline(contents) then "\n" else "";
    assert read[i] == lines[i] + end;
    TerminatorIsIrrelevant(lines[i], end, names);
  }

  lemma NameFindsLine(doc: seq<Entry>, names: seq<string>, updates: map<string, string>, changes: map<string, string>,
                      k: string, i: nat)
    requires Agreed(doc, names, updates, changes) && k in changes && IsOptionLine(doc, k, i)
    ensures i < |doc| && OptionName(doc[i].text, names) == Some(SlotOf(k).key)
  {
    hide SlotOf, SectionAfter, OptionName;
    assert SlotOf(k).key in names;
    var j := NamedLineIsOptionLine(doc, names, updates, changes, i);
  }

  /**
   * A direct save and a save through the script both succeed and leave files with the same values,
   * whatever order either of them visits the changes in.
   */
  lemma SavePathsAgree(contents: string, changes: map<string, string>, order: seq<string>, run: Patch)
    requires Saveable(contents, changes) && Enumerates(order, changes.Keys)
    requires run.Valid() && run.doc == Entries(Lines(contents)) && run.changes == changes
    ensures run.Sized() && Refusal(contents, Arguments(order, changes)).None?
    ensures var arguments := Arguments(order, changes);
            var names, updates := Names(arguments, |order|), Updates(arguments, |order|);
            var written := Concat(SetLines(ReadLines(contents), names, updates));
            ParseValues(written) == ParseValues(T.PatchText(contents, run)) == ParseValues(contents) + changes
  {
    hide SlotOf, Lines, Read, Names, Updates, Terminated, OptionName, ParseValues, Repeated, Patch.Valid, SetLines,
         Concat, Refusal, SlotFits, T.PatchText, Settable, OneLineEach, DistinctKeys;
    var arguments := Arguments(order, changes);
    RequestAccepted(contents, changes, order);
    SetTheorem(contents, Names(arguments, |order|), Updates(arguments, |order|), changes);
    OptionKeys(contents, changes);
    ParseIsEntries(contents);
    assert KeysFit(run.doc, changes);
    T.PatchTheorem(contents, run);
    assert changes - Repeated(run.doc) == changes;
  }

  /** A request both writers understand is accepted, and meets the exact condition. */
  lemma SaveableIsHonoured(contents: string, changes: map<string, string>, order: seq<string>)
    requires Saveable(contents, changes) && Enumerates(order, changes.Keys)
    ensures Refusal(contents, Arguments(order, changes)).None?
    ensures PlainlyNamed(changes) && SetHonours(contents, order, changes)
  {
    hide SlotOf, Lines, Names, Updates, Refusal, LinesFit, OneLineEach, IsKeyName, IsClean, MapKey, DistinctKeys;
    var names, updates := Names(Arguments(order, changes), |order|), Updates(Arguments(order, changes), |order|);
    RequestAccepted(contents, changes, order);
    SettableIsProper(contents, names, updates, changes);
    SettableNames(contents, names, updates, changes);
    T.EntriesSound(Lines(contents));
    OptionLinesFit(Entries(Lines(contents)), names, updates, changes);
  }

  // ----- files only one writer handles as meant -----

  /** A file with one option, and what the script makes of it. */
  lemma SetOnOneOption(section: string, key: string, first: string, value: string)
    requires IsHeaderName(section) && IsKeyName(key) && IsClean(first) && IsClean(value) && !HasLineBreak(value)
    ensures var contents := Unlines([HeaderLine(section), OptionStem(key) + first], true);
            && ParseValues(contents) == map[MapKey(section, key) := first]
            && RefusedFor(ReadLines(contents), [key], map[key := value]) == None
            && ParseValues(Concat(SetLines(ReadLines(contents), [key], map[key := value])))
                 == map[MapKey(section, key) := value]
  {
    hide Lines, Unlines, MapKey, OptionName, IsHeaderName, IsKeyName, IsClean, Read, ValuesOf, SetLines, Concat,
         ReadLines, HasLineBreak;
    var lines := [HeaderLine(section), OptionStem(key) + first];
    var contents := Unlines(lines, true);
    OneOptionReads(section, key, first);
    OneOptionReads(section, key, value);
    ParseIsEntries(contents);
    HeaderIsNoOption(section, key);
    OptionIsOption(key, first);
    OneRequest(key, value);
    SetReads(contents, [key], map[key := value], 1);
    assert SetEntries(Entries(lines), [key], map[key := value])
        == [Entry(HeaderLine(section), Header(section)), Added(key, value)];
    LineIsFound(contents, [key], 1);
    AcceptsOne(ReadLines(contents), key, value);
  }

  lemma OneRequest(key: string, value: string)
    requires IsKeyName(key) && IsClean(value)
    ensures OneLiners([key], map[key := value]) && PlainNames([key])
    ensures LineEntry(OptionStem(key) + value) == Added(key, value)
  {
    hide IsKeyName, IsTrimmed, Read;
    assert Proper([key], map[key := value]);
    ProperNamesArePlain([key], map[key := value]);
    CleanLineEntry(key, value);
  }

  lemma OneOptionReads(section: string, key: string, value: string)
    requires IsHeaderName(section) && IsKeyName(key) && IsClean(value)
    ensures var lines := [HeaderLine(section), OptionStem(key) + value];
            && Lines(Unlines(lines, true)) == lines
            && Entries(lines) == [Entry(HeaderLine(section), Header(section)), Added(key, value)]
            && ValuesOf("", Entries(lines)) == map[MapKey(section, key) := value]
  {
    hide Read, Lines, Unlines, ValuesOf, IsTrimmed, MapKey, T.Sound;
    var lines := [HeaderLine(section), OptionStem(key) + value];
    var doc := [Entry(HeaderLine(section), Header(section)), Added(key, value)];
    T.SoundHeader(section);
    T.SoundAdded(key, value);
    SoundIsOneLine(doc[0]);
    SoundIsOneLine(doc[1]);
    LinesOfUnlines(lines, true);
    assert Entries(lines) == doc;
    P.Step(doc, 0);
    P.Step(doc, 1);
    P.NothingRead("");
    assert doc[..0] == [] && doc[..2] == doc;
  }

  function TwoSections(a: string, b: string, key: string, first: string, second: string): seq<string> {
    [HeaderLine(a), OptionStem(key) + first, HeaderLine(b), OptionStem(key) + second]
  }

  function TwoSectionEntries(a: string, b: string, key: string, first: string, second: string): seq<Entry> {
    [Entry(HeaderLine(a), Header(a)), Added(key, first), Entry(HeaderLine(b), Header(b)), Added(key, second)]
  }

  ghost predicate TwoSectionsRequest(a: string, b: string, key: string, first: string, second: string, value: string) {
    && IsHeaderName(a) && IsHeaderName(b) && a != b && IsKeyName(key)
    && IsClean(first) && IsClean(second) && IsClean(value)
  }

  lemma TwoSectionsRead(a: string, b: string, key: string, first: string, second: string)
    requires TwoSectionsRequest(a, b, key, first, second, first)
    ensures var lines := TwoSections(a, b, key, first, second);
            && Lines(Unlines(lines, true)) == lines
            && Entries(lines) == TwoSectionEntries(a, b, key, first, second)
            && ValuesOf("", Entries(lines)) == map[MapKey(a, key) := first, MapKey(b, key) := second]
  {
    hide Read, Lines, Unlines, ValuesOf, IsTrimmed, MapKey, T.Sound;
    var lines := TwoSections(a, b, key, first, second);
    HeaderLineReads(a);
    HeaderLineReads(b);
    T.SoundHeader(a);
    T.SoundHeader(b);
    T.SoundAdded(key, first);
    T.SoundAdded(key, second);
    SoundIsOneLine(Entry(HeaderLine(a), Header(a)));
    SoundIsOneLine(Entry(HeaderLine(b), Header(b)));
    SoundIsOneLine(Added(key, first));
    SoundIsOneLine(Added(key, second));
    LinesOfUnlines(lines, true);
    FourEntries(a, b, key, first, second);
  }

  lemma SoundIsOneLine(e: Entry)
    requires T.Sound(e)
    ensures NoNewline(e.text) && e.meaning == Read(e.text)
  {
  }

  lemma SetOnTwoSections(a: string, b: string, key: string, first: string, second: string, value: string)
    requires TwoSectionsRequest(a, b, key, first, second, value) && !HasLineBreak(value)
    ensures var contents := Unlines(TwoSections(a, b, key, first, second), true);
            && RefusedFor(ReadLines(contents), [key], map[key := value]) == None
            && ParseValues(Concat(SetLines(ReadLines(contents), [key], map[key := value])))
               == map[MapKey(a, key) := value, MapKey(b, key) := value]
  {
    hide Lines, Unlines, MapKey, OptionName, IsHeaderName, IsKeyName, IsClean, Read, ValuesOf, SetLines, Concat,
         ReadLines, HasLineBreak;
    var lines := TwoSections(a, b, key, first, second);
    var contents := Unlines(lines, true);
    TwoSectionsRead(a, b, key, first, second);
    TwoSectionsRead(a, b, key, value, value);
    HeaderIsNoOption(a, key);
    HeaderIsNoOption(b, key);
    OptionIsOption(key, first);
    OptionIsOption(key, second);
    OneRequest(key, value);
    SetReads(contents, [key], map[key := value], 1);
    assert SetEntries(Entries(lines), [key], map[key := value]) == Entries(TwoSections(a, b, key, value, value));
    LineIsFound(contents, [key], 1);
    AcceptsOne(ReadLines(contents), key, value);
  }

  /**
   * The script finds options by key alone, so a key used in two sections is changed in both, where the
   * direct save changes the one that was edited.
   */
  lemma SetChangesBothSections(a: string, b: string, key: string, first: string, second: string, value: string,
                               run: Patch)
    requires TwoSectionsRequest(a, b, key, first, second, value) && !HasLineBreak(value)
    requires run.Valid() && run.doc == Entries(Lines(Unlines(TwoSections(a, b, key, first, second), true)))
    requires run.changes == map[MapKey(a, key) := value]
    ensures var contents := Unlines(TwoSections(a, b, key, first, second), true);
            && ParseValues(contents) == map[MapKey(a, key) := first, MapKey(b, key) := second]
            && RefusedFor(ReadLines(contents), [key], map[key := value]) == None
            && ParseValues(Concat(SetLines(ReadLines(contents), [key], map[key := value])))
               == map[MapKey(a, key) := value, MapKey(b, key) := value]
            && run.Sized()
            && ParseValues(T.PatchText(contents, run)) == map[MapKey(a, key) := value, MapKey(b, key) := second]
  {
    hide Lines, Unlines, MapKey, IsHeaderName, IsKeyName, IsClean, Read, ValuesOf, Patch.Valid, SetLines, Concat,
         ReadLines, HasLineBreak, T.PatchText, Count, Repeated, RefusedFor, Added;
    var contents := Unlines(TwoSections(a, b, key, first, second), true);
    TwoSectionsRead(a, b, key, first, second);
    SetOnTwoSections(a, b, key, first, second, value);
    ParseIsEntries(contents);
    DifferentSections(a, b, key);
    NothingRepeated(a, b, key, first, second);
    assert KeysFit(run.doc, run.changes);
    T.PatchTheorem(contents, run);
    assert run.changes - Repeated(run.doc) == run.changes;
  }

  lemma AcceptsOne(lines: seq<string>, key: string, value: string)
    requires !HasLineBreak(value) && IsFound(key, lines, [key])
    ensures RefusedFor(lines, [key], map[key := value]) == None
  {
  }

  lemma DifferentSections(a: string, b: string, key: string)
    requires IsKeyName(key) && a != b
    ensures MapKey(a, key) != MapKey(b, key)
  {
    KeyHasNoSlash(key);
    if MapKey(a, key) == MapKey(b, key) {
      MapKeyInjective(a, key, b, key);
    }
  }

  lemma NothingRepeated(a: string, b: string, key: string, first: string, second: string)
    requires MapKey(a, key) != MapKey(b, key)
    ensures var doc := TwoSectionEntries(a, b, key, first, second);
            Repeated(doc) == {}
  {
    hide MapKey;
    var doc := TwoSectionEntries(a, b, key, first, second);
    P.Step(doc, 0);
    P.Step(doc, 1);
    P.Step(doc, 2);
    assert doc[..0] == [];
    assert KeyAt(doc, 1) == MapKey(a, key) && KeyAt(doc, 3) == MapKey(b, key);
    forall k ensures Count(doc, 4, k) <= 1 {
      assert Count(doc, 1, k) == 0;
      assert Count(doc, 3, k) == Count(doc, 2, k);
    }
  }

  lemma HeaderIsNoOption(section: string, key: string)
    requires IsKeyName(key)
    ensures OptionName(HeaderLine(section), [key]) == None
  {
    assert KeyChar.Has(key[0]);
    assert (key + " ")[0] == key[0];
    assert HeaderLine(section)[0] == '[';
  }

  lemma OptionIsOption(key: string, value: string)
    ensures OptionName(OptionStem(key) + value, [key]) == Some(key)
  {
    assert OptionStem(key) + value == (key + " ") + ("= " + value);
  }

  lemma FourEntries(a: string, b: string, key: string, first: string, second: string)
    ensures ValuesOf("", TwoSectionEntries(a, b, key, first, second))
         == map[MapKey(a, key) := first][MapKey(b, key) := second]
  {
    hide MapKey;
    var doc := TwoSectionEntries(a, b, key, first, second);
    P.Step(doc, 0);
    P.Step(doc, 1);
    P.Step(doc, 2);
    P.Step(doc, 3);
    assert doc[..0] == [] && doc[..4] == doc;
  }

  /** The other way round, an option on two lines that the script rewrites is changed by it and not by a direct save. */
  lemma SetChangesARepeatedOption(value: string, run: Patch)
    requires IsClean(value) && !HasLineBreak(value) && value != "2"
    requires run.Valid() && run.doc == Entries(Lines("[a]\nk = 1\nk = 2\n")) && run.changes == map["a/k" := value]
    ensures var contents := "[a]\nk = 1\nk = 2\n";
            && RefusedFor(ReadLines(contents), ["k"], map["k" := value]) == None
            && ParseValues(Concat(SetLines(ReadLines(contents), ["k"], map["k" := value]))) == map["a/k" := value]
            && run.Sized()
            && ParseValues(T.PatchText(contents, run)) == map["a/k" := "2"]
  {
    hide Lines, OptionName, IsHeaderName, IsClean, Read, ValuesOf, Patch.Valid, SetLines, Concat, ReadLines,
         HasLineBreak, T.PatchText, Count;
    var contents, key := "[a]\nk = 1\nk = 2\n", "k";
    L.TwiceIsAFile();
    L.TwiceLines();
    L.ChangingARepeatedOptionIsLost(run, value);
    assert HeaderLine("a") == "[a]" && OptionStem("k") + "1" == "k = 1" && OptionStem("k") + "2" == "k = 2";
    HeaderIsNoOption("a", key);
    OptionIsOption(key, "1");
    OptionIsOption(key, "2");
    OneRequest(key, value);
    SetReads(contents, [key], map[key := value], 1);
    var written := [L.TWICE[0], Added(key, value), Added(key, value)];
    assert SetEntries(L.TWICE, [key], map[key := value]) == written;
    TwiceAdded(value);
    LineIsFound(contents, [key], 1);
    AcceptsOne(ReadLines(contents), key, value);
  }

  lemma TwiceAdded(value: string)
    ensures ValuesOf("", [L.TWICE[0], Added("k", value), Added("k", value)]) == map["a/k" := value]
  {
    var doc := [L.TWICE[0], Added("k", value), Added("k", value)];
    assert MapKey("a", "k") == "a/k";
    P.Step(doc, 0);
    P.Step(doc, 1);
    P.Step(doc, 2);
    assert doc[..0] == [] && doc[..3] == doc;
  }

  /** The script needs a space after the key, which the loader does not: `key=value` can only be saved directly. */
  lemma SetRefusesTightSpelling(key: string, previous: string, value: string)
    requires IsKeyName(key) && IsTrimmed(previous) && !HasLineBreak(value)
    ensures Read(key + "=" + previous) == Assign(key + "=", key, previous)
    ensures RefusedFor([key + "=" + previous], [key], map[key := value]) == Some("unknown_option")
  {
    hide Read, HasLineBreak;
    var line := key + "=" + previous;
    var m := Assignment("", key, "", '=', "", previous);
    assert m.Stem() == key + "=";
    AssignmentLineReads(line, m);
    assert line[|key|] == '=' && (key + " ")[|key|] == ' ';
    assert OptionName(line, [key]) == None;
    assert !IsFound(key, [line], [key]);
    assert key in [key];
  }
}
