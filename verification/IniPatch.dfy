/** The meaning of the patched lines: the old values overridden by the changes. */
module IniPatch {
  import opened Text
  import opened IniLine
  import opened IniSpec

  lemma {:induction false} Compose(section: string, a: seq<Entry>, b: seq<Entry>)
    ensures SectionAfter(section, a + b) == SectionAfter(SectionAfter(section, a), b)
    ensures ValuesOf(section, a + b) == ValuesOf(section, a) + ValuesOf(SectionAfter(section, a), b)
  {
    if b == [] {
      assert a + b == a;
    } else {
      var init := b[..|b| - 1];
      assert (a + b)[..|a + b| - 1] == a + init;
      Compose(section, a, init);
    }
  }

  lemma NothingRead(section: string)
    ensures SectionAfter(section, []) == section && ValuesOf(section, []) == map[]
  {
  }

  lemma PrefixStep<T>(s: seq<T>, i: nat)
    requires i < |s|
    ensures s[..i + 1][..i] == s[..i]
    ensures s[..i + 1] == s[..i] + [s[i]]
  {
  }

  /** Reading one more entry. */
  lemma Snoc(section: string, init: seq<Entry>, e: Entry)
    ensures SectionAfter(section, init + [e]) ==
            match e.meaning case Header(s) => s case _ => SectionAfter(section, init)
    ensures ValuesOf(section, init + [e]) ==
            if e.meaning.Assign?
            then ValuesOf(section, init)[MapKey(SectionAfter(section, init), e.meaning.key) := e.meaning.value]
            else ValuesOf(section, init)
  {
    assert (init + [e])[..|init|] == init;
  }

  lemma Step(doc: seq<Entry>, i: nat)
    requires i < |doc|
    ensures SectionAfter("", doc[..i + 1]) ==
            match doc[i].meaning case Header(s) => s case _ => SectionAfter("", doc[..i])
    ensures ValuesOf("", doc[..i + 1]) ==
            if doc[i].meaning.Assign? then ValuesOf("", doc[..i])[KeyAt(doc, i) := doc[i].meaning.value]
            else ValuesOf("", doc[..i])
  {
    PrefixStep(doc, i);
    Snoc("", doc[..i], doc[i]);
  }

  lemma PutBoth<K, V>(a: map<K, V>, b: map<K, V>, k: K, v: V, w: V)
    ensures (a + b)[k := v] == a[k := w] + b[k := v]
  {
  }

  lemma PutLeft<K, V>(a: map<K, V>, b: map<K, V>, k: K, v: V)
    ensures (a + b)[k := v] == a[k := v] + (b - {k})
  {
  }

  lemma {:induction false} CountZero(doc: seq<Entry>, n: nat, k: string)
    requires n <= |doc|
    ensures Count(doc, n, k) == 0 <==> k !in ValuesOf("", doc[..n])
  {
    if n == 0 {
    } else {
      CountZero(doc, n - 1, k);
      Step(doc, n - 1);
    }
  }

  lemma {:induction false} KeyAtIsRead(doc: seq<Entry>, i: nat, n: nat)
    requires i < n <= |doc| && doc[i].meaning.Assign?
    ensures KeyAt(doc, i) in ValuesOf("", doc[..n])
  {
    Step(doc, n - 1);
    if i == n - 1 {
    } else {
      KeyAtIsRead(doc, i, n - 1);
    }
  }

  // ----- pass one -----

  /** The changes of options that exactly one of the first n entries assigns. */
  ghost function Once(doc: seq<Entry>, changes: map<string, string>, n: nat): map<string, string>
    requires n <= |doc|
  {
    map k | k in changes && Count(doc, n, k) == 1 :: changes[k]
  }

  lemma OnceStep(doc: seq<Entry>, changes: map<string, string>, i: nat)
    requires i < |doc|
    ensures !doc[i].meaning.Assign? ==> Once(doc, changes, i + 1) == Once(doc, changes, i)
    ensures doc[i].meaning.Assign? ==>
              var k := KeyAt(doc, i);
              Once(doc, changes, i + 1) ==
              if k in changes && k !in ValuesOf("", doc[..i]) then Once(doc, changes, i)[k := changes[k]]
              else Once(doc, changes, i) - {k}
  {
    if doc[i].meaning.Assign? {
      CountZero(doc, i, KeyAt(doc, i));
    }
  }

  lemma MapAssoc<K, V>(a: map<K, V>, b: map<K, V>, c: map<K, V>)
    ensures (a + b) + c == a + (b + c)
  {
  }

  lemma RewrittenKind(doc: seq<Entry>, changes: map<string, string>, i: nat)
    requires i < |doc|
    ensures var e := Rewritten(doc, changes, i);
            if doc[i].meaning.Assign? then e.meaning.Assign? && e.meaning.key == doc[i].meaning.key else e == doc[i]
  {
  }

  /** Pass one leaves every section where it was and gives once-assigned options their new value. */
  lemma {:induction false} PassOneReads(doc: seq<Entry>, changes: map<string, string>, n: nat)
    requires n <= |doc|
    ensures SectionAfter("", PassOne(doc, changes)[..n]) == SectionAfter("", doc[..n])
    ensures ValuesOf("", PassOne(doc, changes)[..n]) == ValuesOf("", doc[..n]) + Once(doc, changes, n)
  {
    if n == 0 {
    } else {
      var out, i := PassOne(doc, changes), n - 1;
      PassOneReads(doc, changes, i);
      Step(doc, i);
      Step(out, i);
      OnceStep(doc, changes, i);
      if doc[i].meaning.Assign? {
        var k, v := KeyAt(doc, i), doc[i].meaning.value;
        assert KeyAt(out, i) == k;
        PutBoth(ValuesOf("", doc[..i]), Once(doc, changes, i), k, out[i].meaning.value, v);
        PutLeft(ValuesOf("", doc[..i]), Once(doc, changes, i), k, v);
      }
    }
  }

  // ----- pass two: one section's lines -----

  ghost predicate Named(order: seq<string>, slots: map<string, Slot>, changes: map<string, string>) {
    forall k :: k in order ==> k in changes && k in slots && MapKey(slots[k].section, slots[k].key) == k
  }

  /** The changes of some options. */
  ghost function Pick(changes: map<string, string>, ks: set<string>): map<string, string> {
    map k | k in changes && k in ks :: changes[k]
  }

  lemma PickUnion(changes: map<string, string>, a: set<string>, b: set<string>)
    ensures Pick(changes, a) + Pick(changes, b) == Pick(changes, a + b)
  {
  }

  lemma PickAdd(changes: map<string, string>, ks: set<string>, k: string)
    requires k in changes
    ensures Pick(changes, ks + {k}) == Pick(changes, ks)[k := changes[k]]
  {
  }

  ghost function Members(section: string, order: seq<string>, slots: map<string, Slot>): set<string> {
    set k | k in order && k in slots && slots[k].section == section
  }

  lemma MembersStep(section: string, order: seq<string>, k: string, slots: map<string, Slot>)
    requires k in slots
    ensures Members(section, order + [k], slots) ==
            Members(section, order, slots) + if slots[k].section == section then {k} else {}
  {
  }

  lemma {:induction false} GroupReads(section: string, order: seq<string>, slots: map<string, Slot>,
                                      changes: map<string, string>)
    requires Named(order, slots, changes)
    ensures SectionAfter(section, Group(section, order, slots, changes)) == section
    ensures ValuesOf(section, Group(section, order, slots, changes)) == Pick(changes, Members(section, order, slots))
  {
    if order == [] {
    } else {
      var init, k := order[..|order| - 1], order[|order| - 1];
      assert order == init + [k];
      GroupReads(section, init, slots, changes);
      GroupStep(section, init, k, slots, changes);
    }
  }

  lemma GroupStep(section: string, init: seq<string>, k: string, slots: map<string, Slot>,
                  changes: map<string, string>)
    requires Named(init, slots, changes) && Named(init + [k], slots, changes)
    requires SectionAfter(section, Group(section, init, slots, changes)) == section
    requires ValuesOf(section, Group(section, init, slots, changes)) == Pick(changes, Members(section, init, slots))
    ensures SectionAfter(section, Group(section, init + [k], slots, changes)) == section
    ensures ValuesOf(section, Group(section, init + [k], slots, changes))
         == Pick(changes, Members(section, init + [k], slots))
  {
    var group := Group(section, init, slots, changes);
    var order := init + [k];
    assert order[..|order| - 1] == init && order[|order| - 1] == k;
    MembersStep(section, init, k, slots);
    assert k in order && Named(order, slots, changes);
    if slots[k].section == section {
      Snoc(section, group, Added(slots[k].key, changes[k]));
      PickAdd(changes, Members(section, init, slots), k);
    } else {
      assert Group(section, order, slots, changes) == group;
      assert Members(section, init, slots) + {} == Members(section, init, slots);
    }
  }

  lemma {:induction false} BackOverBlanksKeepsSection(doc: seq<Entry>, out: seq<Entry>, i: nat)
    requires |out| == |doc| && i <= |doc|
    requires forall j :: 0 <= j < |doc| && IsBlank(out[j].text) ==> doc[j].meaning.Other?
    ensures SectionAfter("", doc[..BackOverBlanks(out, i)]) == SectionAfter("", doc[..i])
    decreases i
  {
    hide IsBlank, SectionAfter, ValuesOf;
    if i <= 0 || !IsBlank(out[i - 1].text) {
    } else {
      BackOverBlanksKeepsSection(doc, out, i - 1);
      Step(doc, i - 1);
    }
  }

  lemma {:induction false} EndOfIsInSection(doc: seq<Entry>, n: nat, section: string)
    requires n <= |doc|
    ensures EndOf(doc, n, section) >= 0 ==> SectionAfter("", doc[..EndOf(doc, n, section)]) == section
  {
    if n == 0 {
    } else {
      EndOfIsInSection(doc, n - 1, section);
    }
  }

  /** Lines inserted for a section land inside that section. */
  lemma InsertPoint(doc: seq<Entry>, out: seq<Entry>, section: string)
    requires |out| == |doc| && InsertAt(doc, out, section) >= 0
    requires forall j :: 0 <= j < |doc| && IsBlank(out[j].text) ==> doc[j].meaning.Other?
    ensures SectionAfter("", doc[..InsertAt(doc, out, section)]) == section
  {
    EndOfIsInSection(doc, |doc|, section);
    BackOverBlanksKeepsSection(doc, out, EndOf(doc, |doc|, section));
  }

  // ----- pass two: everything inserted before one line, or appended -----

  /** What the meaning of the result depends on: no character of any line or value matters here. */
  ghost predicate Ready(p: Patch) {
    && p.Sized()
    && p.out == PassOne(p.doc, p.changes)
    && Named(p.order, p.slots, p.changes)
    && (forall k :: k in p.order <==> k in p.changes && k !in ValuesOf("", p.doc))
    && (forall k :: k in p.order ==> p.slots[k].section in p.sections)
    && (forall s :: s in p.sections ==>
          && -1 <= p.at[s] <= |p.doc|
          && (p.at[s] >= 0 ==> SectionAfter("", p.doc[..p.at[s]]) == s))
  }

  /** The options of the first m sections whose lines go to position i. */
  ghost function Placed(p: Patch, i: int, m: nat): set<string>
    requires Ready(p) && m <= |p.sections|
  {
    set k | k in p.order && p.slots[k].section in p.sections[..m] && p.at[p.slots[k].section] == i
  }

  lemma PlacedStep(p: Patch, i: int, m: nat)
    requires Ready(p) && m < |p.sections|
    ensures var s := p.sections[m];
            Placed(p, i, m + 1) == Placed(p, i, m) + if p.at[s] == i then Members(s, p.order, p.slots) else {}
  {
    PrefixStep(p.sections, m);
    var prefix, s := p.sections[..m], p.sections[m];
    assert forall x :: x in prefix + [s] <==> x in prefix || x == s;
  }

  lemma {:induction false} InsertedReads(p: Patch, i: nat, m: nat)
    requires Ready(p) && i <= |p.doc| && m <= |p.sections|
    ensures var here := SectionAfter("", p.doc[..i]);
            && SectionAfter(here, p.Inserted(i, m)) == here
            && ValuesOf(here, p.Inserted(i, m)) == Pick(p.changes, Placed(p, i, m))
  {
    hide ValuesOf, SectionAfter, Group;
    NothingRead(SectionAfter("", p.doc[..i]));
    if m == 0 {
    } else {
      InsertedReads(p, i, m - 1);
      InsertedStep(p, i, m - 1, SectionAfter("", p.doc[..i]));
    }
  }

  lemma InsertedStep(p: Patch, i: nat, m: nat, here: string)
    requires Ready(p) && i <= |p.doc| && m < |p.sections| && here == SectionAfter("", p.doc[..i])
    requires SectionAfter(here, p.Inserted(i, m)) == here
    requires ValuesOf(here, p.Inserted(i, m)) == Pick(p.changes, Placed(p, i, m))
    ensures SectionAfter(here, p.Inserted(i, m + 1)) == here
    ensures ValuesOf(here, p.Inserted(i, m + 1)) == Pick(p.changes, Placed(p, i, m + 1))
  {
    var s := p.sections[m];
    PlacedStep(p, i, m);
    if p.at[s] == i {
      assert s == here;
      var group := Group(s, p.order, p.slots, p.changes);
      GroupReads(s, p.order, p.slots, p.changes);
      Compose(s, p.Inserted(i, m), group);
      PickUnion(p.changes, Placed(p, i, m), Members(s, p.order, p.slots));
      assert p.Inserted(i, m + 1) == p.Inserted(i, m) + group;
    } else {
      assert p.Inserted(i, m + 1) == p.Inserted(i, m);
      assert Placed(p, i, m) + {} == Placed(p, i, m);
    }
  }

  lemma NewSectionReads(p: Patch, here: string, gap: seq<Entry>, s: string)
    requires Ready(p) && (gap == [] || gap == [Entry("", Other)])
    ensures ValuesOf(here, gap + p.NewSection(s)) == Pick(p.changes, Members(s, p.order, p.slots))
  {
    var header := [Entry(HeaderLine(s), Header(s))];
    GroupReads(s, p.order, p.slots, p.changes);
    Compose(here, header, Group(s, p.order, p.slots, p.changes));
    Compose(here, gap, p.NewSection(s));
  }

  lemma {:induction false} AppendedReads(p: Patch, m: nat, section: string)
    requires Ready(p) && m <= |p.sections|
    ensures ValuesOf(section, p.Appended(m)) == Pick(p.changes, Placed(p, -1, m))
  {
    hide ValuesOf, SectionAfter, Placed, Pick;
    if m == 0 {
      NothingRead(section);
      NothingPlaced(p, -1);
    } else {
      AppendedReads(p, m - 1, section);
      AppendedStep(p, m - 1, section);
    }
  }

  lemma NothingPlaced(p: Patch, i: int)
    requires Ready(p)
    ensures Pick(p.changes, Placed(p, i, 0)) == map[]
  {
  }

  lemma AppendedStep(p: Patch, m: nat, section: string)
    requires Ready(p) && m < |p.sections|
    requires ValuesOf(section, p.Appended(m)) == Pick(p.changes, Placed(p, -1, m))
    ensures ValuesOf(section, p.Appended(m + 1)) == Pick(p.changes, Placed(p, -1, m + 1))
  {
    hide ValuesOf, SectionAfter, Placed, Pick, Group, Members, Patch.NewSection;
    var s, before := p.sections[m], p.Appended(m);
    PlacedStep(p, -1, m);
    if p.at[s] < 0 {
      PickUnion(p.changes, Placed(p, -1, m), Members(s, p.order, p.slots));
      NewSectionReads(p, SectionAfter(section, before), p.Gap(before), s);
      Compose(section, before, p.Gap(before) + p.NewSection(s));
    } else {
      assert Placed(p, -1, m) + {} == Placed(p, -1, m);
    }
  }

  // ----- the rebuilt document -----

  ghost function PlacedBefore(p: Patch, i: int): set<string>
    requires Ready(p)
  {
    set k | k in p.order && 0 <= p.at[p.slots[k].section] < i
  }

  lemma PlacedBeforeStep(p: Patch, i: int)
    requires Ready(p) && 0 <= i
    ensures PlacedBefore(p, i + 1) == PlacedBefore(p, i) + Placed(p, i, |p.sections|)
  {
    assert p.sections[..|p.sections|] == p.sections;
  }

  /** The option an entry of the file assigns is never among those the file lacks. */
  lemma KeyAtIsOld(p: Patch, n: nat)
    requires Ready(p) && n < |p.doc| && p.doc[n].meaning.Assign?
    ensures KeyAt(p.doc, n) in ValuesOf("", p.doc)
  {
    KeyAtIsRead(p.doc, n, |p.doc|);
    assert p.doc[..|p.doc|] == p.doc;
  }

  lemma {:induction false} RebuiltReads(p: Patch, i: nat)
    requires Ready(p) && i <= |p.doc|
    ensures SectionAfter("", p.Rebuilt(i)) == SectionAfter("", p.doc[..i])
    ensures ValuesOf("", p.Rebuilt(i)) == ValuesOf("", p.out[..i]) + Pick(p.changes, PlacedBefore(p, i))
  {
    hide ValuesOf, SectionAfter, Pick, PlacedBefore, Patch.Inserted;
    if i == 0 {
      NothingRead("");
      NothingPlacedBefore(p);
    } else {
      RebuiltReads(p, i - 1);
      RebuiltStep(p, i - 1);
    }
  }

  lemma NothingPlacedBefore(p: Patch)
    requires Ready(p)
    ensures Pick(p.changes, PlacedBefore(p, 0)) == map[]
  {
  }

  lemma RebuiltStep(p: Patch, n: nat)
    requires Ready(p) && n < |p.doc|
    requires SectionAfter("", p.Rebuilt(n)) == SectionAfter("", p.doc[..n])
    requires ValuesOf("", p.Rebuilt(n)) == ValuesOf("", p.out[..n]) + Pick(p.changes, PlacedBefore(p, n))
    ensures SectionAfter("", p.Rebuilt(n + 1)) == SectionAfter("", p.doc[..n + 1])
    ensures ValuesOf("", p.Rebuilt(n + 1)) == ValuesOf("", p.out[..n + 1]) + Pick(p.changes, PlacedBefore(p, n + 1))
  {
    var before, line := p.Rebuilt(n) + p.Inserted(n, |p.sections|), p.out[n];
    InsertedAfterRebuilt(p, n);
    PassOneReads(p.doc, p.changes, n);
    RewrittenKind(p.doc, p.changes, n);
    Step(p.doc, n);
    Step(p.out, n);
    Snoc("", before, line);
    assert p.Rebuilt(n + 1) == before + [line];
    if line.meaning.Assign? {
      KeyAtIsOld(p, n);
      PutOld(ValuesOf("", p.out[..n]), Pick(p.changes, PlacedBefore(p, n + 1)), KeyAt(p.doc, n), line.meaning.value);
    }
  }

  lemma PutOld<K, V>(a: map<K, V>, b: map<K, V>, k: K, v: V)
    requires k !in b
    ensures (a + b)[k := v] == a[k := v] + b
  {
  }

  lemma InsertedAfterRebuilt(p: Patch, n: nat)
    requires Ready(p) && n < |p.doc|
    requires SectionAfter("", p.Rebuilt(n)) == SectionAfter("", p.doc[..n])
    requires ValuesOf("", p.Rebuilt(n)) == ValuesOf("", p.out[..n]) + Pick(p.changes, PlacedBefore(p, n))
    ensures var before := p.Rebuilt(n) + p.Inserted(n, |p.sections|);
            && SectionAfter("", before) == SectionAfter("", p.doc[..n])
            && ValuesOf("", before) == ValuesOf("", p.out[..n]) + Pick(p.changes, PlacedBefore(p, n + 1))
  {
    InsertedReads(p, n, |p.sections|);
    Compose("", p.Rebuilt(n), p.Inserted(n, |p.sections|));
    PlacedBeforeStep(p, n);
    PickUnion(p.changes, PlacedBefore(p, n), Placed(p, n, |p.sections|));
    MapAssoc(ValuesOf("", p.out[..n]), Pick(p.changes, PlacedBefore(p, n)),
             Pick(p.changes, Placed(p, n, |p.sections|)));
  }

  /** The patched entries mean the old values overridden by every change whose option is not repeated. */
  lemma ResultReads(p: Patch)
    requires Ready(p)
    ensures ValuesOf("", p.Result()) == ValuesOf("", p.doc) + (p.changes - Repeated(p.doc))
  {
    var n, m := |p.doc|, |p.sections|;
    assert p.doc[..n] == p.doc && p.out[..n] == p.out;
    RebuiltReads(p, n);
    PassOneReads(p.doc, p.changes, n);
    InsertedReads(p, n, m);
    AppendedReads(p, m, SectionAfter("", p.doc));
    Compose("", p.Rebuilt(n), p.Inserted(n, m));
    Compose("", p.Rebuilt(n) + p.Inserted(n, m), p.Appended(m));
    AddsUp(p);
  }

  lemma AllAdded(p: Patch)
    requires Ready(p)
    ensures Pick(p.changes, PlacedBefore(p, |p.doc|)) + Pick(p.changes, Placed(p, |p.doc|, |p.sections|))
            + Pick(p.changes, Placed(p, -1, |p.sections|)) == Remaining(p.doc, p.changes)
  {
    var a, b, c := PlacedBefore(p, |p.doc|), Placed(p, |p.doc|, |p.sections|), Placed(p, -1, |p.sections|);
    assert p.sections[..|p.sections|] == p.sections;
    PickUnion(p.changes, a, b);
    PickUnion(p.changes, a + b, c);
    assert a + b + c == set k | k in p.order;
  }

  lemma OnceAndRemaining(doc: seq<Entry>, changes: map<string, string>)
    ensures Once(doc, changes, |doc|) + Remaining(doc, changes) == changes - Repeated(doc)
  {
    var n := |doc|;
    assert doc[..n] == doc;
    forall k ensures Count(doc, n, k) == 0 <==> k !in ValuesOf("", doc) {
      CountZero(doc, n, k);
    }
  }

  lemma AddsUp(p: Patch)
    requires Ready(p)
    ensures ValuesOf("", p.doc) + Once(p.doc, p.changes, |p.doc|) + Pick(p.changes, PlacedBefore(p, |p.doc|))
            + Pick(p.changes, Placed(p, |p.doc|, |p.sections|)) + Pick(p.changes, Placed(p, -1, |p.sections|))
         == ValuesOf("", p.doc) + (p.changes - Repeated(p.doc))
  {
    AllAdded(p);
    OnceAndRemaining(p.doc, p.changes);
    Assoc(ValuesOf("", p.doc), Once(p.doc, p.changes, |p.doc|), Pick(p.changes, PlacedBefore(p, |p.doc|)),
          Pick(p.changes, Placed(p, |p.doc|, |p.sections|)), Pick(p.changes, Placed(p, -1, |p.sections|)));
  }

  lemma Assoc<K, V>(a: map<K, V>, b: map<K, V>, c: map<K, V>, d: map<K, V>, e: map<K, V>)
    ensures a + b + c + d + e == a + (b + (c + d + e))
  {
    var x, y := a + b + c + d + e, a + (b + (c + d + e));
    assert x.Keys == y.Keys;
    assert forall k :: k in x ==> x[k] == y[k];
  }
}
