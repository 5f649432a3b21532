/** What a config file means, and the lines the editor produces for a set of changed options. */
module IniSpec {
  import opened Text
  import opened IniLine

  /** A line together with what it does. */
  datatype Entry = Entry(text: string, meaning: Meaning)

  function Entries(texts: seq<string>): (r: seq<Entry>)
    ensures |r| == |texts|
  {
    seq(|texts|, i requires 0 <= i < |texts| => Entry(texts[i], Read(texts[i])))
  }

  function Texts(doc: seq<Entry>): (r: seq<string>)
    ensures |r| == |doc|
  {
    seq(|doc|, i requires 0 <= i < |doc| => doc[i].text)
  }

  function MapKey(section: string, key: string): string {
    section + "/" + key
  }

  /** The section in force after reading entries, starting inside `section`. */
  function SectionAfter(section: string, doc: seq<Entry>): string {
    if doc == [] then section
    else
      match doc[|doc| - 1].meaning
      case Header(s) => s
      case _ => SectionAfter(section, doc[..|doc| - 1])
  }

  /** Every option the entries assign, the last assignment winning. */
  function ValuesOf(section: string, doc: seq<Entry>): map<string, string> {
    if doc == [] then map[]
    else
      var init := doc[..|doc| - 1];
      match doc[|doc| - 1].meaning
      case Assign(_, k, v) => ValuesOf(section, init)[MapKey(SectionAfter(section, init), k) := v]
      case _ => ValuesOf(section, init)
  }

  function ParseValues(contents: string): map<string, string> {
    ValuesOf("", Entries(Lines(contents)))
  }

  /** The option that entry i assigns. */
  function KeyAt(doc: seq<Entry>, i: nat): string
    requires i < |doc| && doc[i].meaning.Assign?
  {
    MapKey(SectionAfter("", doc[..i]), doc[i].meaning.key)
  }

  /** How many of the first n entries assign option k. */
  function Count(doc: seq<Entry>, n: nat, k: string): nat
    requires n <= |doc|
  {
    if n == 0 then 0
    else Count(doc, n - 1, k) + if doc[n - 1].meaning.Assign? && KeyAt(doc, n - 1) == k then 1 else 0
  }

  /** The options that more than one line assigns. */
  function Repeated(doc: seq<Entry>): set<string> {
    set k | k in ValuesOf("", doc) && Count(doc, |doc|, k) >= 2
  }

  // ----- splitting "section/key" -----

  function FirstSlash(k: string): (i: int)
    ensures -1 <= i < |k|
    ensures i >= 0 ==> k[i] == '/'
  {
    if k == "" then -1
    else if k[0] == '/' then 0
    else
      var i := FirstSlash(k[1..]);
      if i < 0 then -1 else i + 1
  }

  /** The two parts the editor cuts an option's name into at the first '/'. */
  datatype Slot = Slot(section: string, key: string)

  function SlotOf(name: string): Slot {
    var i := FirstSlash(name);
    Slot(if i < 0 then name else name[..i], name[i + 1..])
  }

  ghost predicate Enumerates<T(!new)>(s: seq<T>, xs: set<T>) {
    && (forall i, j :: 0 <= i < j < |s| ==> s[i] != s[j])
    && (forall x :: x in s <==> x in xs)
  }

  // ----- the patched lines -----

  /** Pass one keeps every entry, except that the first entry of a changed option gets the new value. */
  function Rewritten(doc: seq<Entry>, changes: map<string, string>, i: nat): Entry
    requires i < |doc|
  {
    match doc[i].meaning
    case Assign(stem, key, _) =>
      var k := KeyAt(doc, i);
      if k in changes && k !in ValuesOf("", doc[..i])
      then Entry(stem + changes[k], Assign(stem, key, changes[k]))
      else doc[i]
    case _ => doc[i]
  }

  function PassOne(doc: seq<Entry>, changes: map<string, string>): (out: seq<Entry>)
    ensures |out| == |doc|
  {
    seq(|doc|, i requires 0 <= i < |doc| => Rewritten(doc, changes, i))
  }

  function Remaining(doc: seq<Entry>, changes: map<string, string>): map<string, string> {
    changes - ValuesOf("", doc).Keys
  }

  function Added(key: string, value: string): Entry {
    Entry(OptionStem(key) + value, Assign(OptionStem(key), key, value))
  }

  /** The entries added for one section, in the order the remaining options are visited. */
  function Group(section: string, order: seq<string>, slots: map<string, Slot>,
                 changes: map<string, string>): seq<Entry>
    requires forall k :: k in order ==> k in changes && k in slots
  {
    if order == [] then []
    else
      var k := order[|order| - 1];
      Group(section, order[..|order| - 1], slots, changes)
      + if slots[k].section == section then [Added(slots[k].key, changes[k])] else []
  }

  /** One past the last of the first n entries that lies in a section, or -1. */
  function EndOf(doc: seq<Entry>, n: nat, section: string): (e: int)
    requires n <= |doc|
    ensures -1 <= e <= n && e != 0
  {
    if n == 0 then -1
    else if SectionAfter("", doc[..n]) == section then n
    else EndOf(doc, n - 1, section)
  }

  function BackOverBlanks(out: seq<Entry>, i: int): (r: int)
    requires i <= |out|
    ensures r <= i && (i < 0 ==> r == i) && (i >= 0 ==> r >= 0)
  {
    if i > 0 && IsBlank(out[i - 1].text) then BackOverBlanks(out, i - 1) else i
  }

  /** Where the lines of a section go: after its last line, before the blank lines trailing it; -1 if absent. */
  function InsertAt(doc: seq<Entry>, out: seq<Entry>, section: string): (r: int)
    requires |out| == |doc|
    ensures -1 <= r <= |doc|
    ensures r < 0 <==> EndOf(doc, |doc|, section) < 0
  {
    BackOverBlanks(out, EndOf(doc, |doc|, section))
  }

  /**
   * One run of the editor: the entries it loaded, the changes it was given, the orders in which it
   * happened to visit the options the file lacks (a hash) and their sections, the entries after
   * pass one, the parts of each missing option, the insertion point of each section, and whether
   * pass one ends in a blank line.
   */
  datatype Patch = Patch(doc: seq<Entry>, changes: map<string, string>, order: seq<string>, sections: seq<string>,
                         out: seq<Entry>, slots: map<string, Slot>, at: map<string, int>, blankEnd: bool) {

    ghost predicate Valid() {
      && Enumerates(order, Remaining(doc, changes).Keys)
      && slots == (map k | k in Remaining(doc, changes) :: SlotOf(k))
      && Enumerates(sections, set k | k in slots :: slots[k].section)
      && out == PassOne(doc, changes)
      && at == (map s | s in sections :: InsertAt(doc, out, s))
      && (blankEnd <==> out == [] || IsBlank(out[|out| - 1].text))
    }

    /** What assembling the lines relies on. */
    ghost predicate Sized() {
      && |out| == |doc|
      && (forall s :: s in sections ==> s in at)
      && (forall k :: k in order ==> k in changes && k in slots)
    }

    /** The entries the first m sections insert before entry i. */
    ghost function Inserted(i: int, m: nat): seq<Entry>
      requires Sized() && m <= |sections|
    {
      if m == 0 then []
      else
        Inserted(i, m - 1)
        + if at[sections[m - 1]] == i then Group(sections[m - 1], order, slots, changes) else []
    }

    /** The new sections among the first m, each after an empty line unless nothing precedes it. */
    ghost function Appended(m: nat): seq<Entry>
      requires Sized() && m <= |sections|
    {
      if m == 0 then []
      else if at[sections[m - 1]] >= 0 then Appended(m - 1)
      else Appended(m - 1) + (Gap(Appended(m - 1)) + NewSection(sections[m - 1]))
    }

    function Gap(before: seq<Entry>): seq<Entry> {
      if before != [] || !blankEnd then [Entry("", Other)] else []
    }

    ghost function NewSection(section: string): seq<Entry>
      requires Sized()
    {
      [Entry(HeaderLine(section), Header(section))] + Group(section, order, slots, changes)
    }

    ghost function Rebuilt(i: nat): seq<Entry>
      requires Sized() && i <= |doc|
    {
      if i == 0 then []
      else Rebuilt(i - 1) + Inserted(i - 1, |sections|) + [out[i - 1]]
    }

    ghost function Result(): seq<Entry>
      requires Sized()
    {
      Rebuilt(|doc|) + Inserted(|doc|, |sections|) + Appended(|sections|)
    }
  }

  // ----- when the changes can be written -----

  predicate IsClean(value: string) {
    IsTrimmed(value) && NoNewline(value)
  }

  predicate ValuesClean(changes: map<string, string>) {
    forall k :: k in changes ==> IsClean(changes[k])
  }

  /** The two parts of an option can be written as a line of a (possibly new) section. */
  predicate SlotFits(doc: seq<Entry>, k: string, slot: Slot) {
    && MapKey(slot.section, slot.key) == k
    && IsKeyName(slot.key)
    && (IsHeaderName(slot.section) || EndOf(doc, |doc|, slot.section) >= 0)
  }

  predicate KeyFits(doc: seq<Entry>, k: string) {
    k in ValuesOf("", doc) || SlotFits(doc, k, SlotOf(k))
  }

  predicate KeysFit(doc: seq<Entry>, changes: map<string, string>) {
    forall k :: k in changes ==> KeyFits(doc, k)
  }
}
