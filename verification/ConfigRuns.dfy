/** Whole sessions of the settings store: any order of edits, saves, reloads and changes underneath. */
module ConfigRuns {
  import opened ConfigValues
  import opened Text
  import opened IniLine
  import opened IniSpec
  import opened ConfigSet
  import opened ConfigStore
  import opened Options
  import Doc = IniDocument
  import S = SavePaths
  import T = IniTheorem

  /** `asked` is what the command line tool was last started with. */
  datatype World = World(store: Store, file: File, asked: seq<string>)

  datatype Event =
    | Set(section: string, key: string, value: Value)
    | Reset(section: string, key: string)
    | Load
    | Revert(order: seq<string>)
    | KeepEdits
    | Notice                          // the file watcher's delay is over
    | Elsewhere(file: File)           // another program replaces the file
    | Save(access: Access, run: Patch, order: seq<string>)
    | CliRuns                         // the command line tool does its work
    | CliEnds(id: nat, ok: bool)

  ghost predicate Enabled(w: World, e: Event) {
    match e
    case Revert(order) => Enumerates(order, w.store.pending.Keys)
    case Save(access, run, order) =>
      && (ReplacesFile(w.store, w.file, access) ==> IsRunFor(run, w.store, w.file))
      && (access.ThroughCli? ==> access.job > 0)
      && Enumerates(order, w.store.pending.Keys)
    case CliRuns => w.store.saveJob != 0
    case CliEnds(id, _) => id > 0
    case _ => true
  }

  /** The file after `secureEye set`: rewritten if the request is accepted, and untouched otherwise. */
  function AfterCli(file: File, arguments: seq<string>): File {
    if file.Contents? && Refusal(file.text, arguments).None? then
      var n := |arguments| / 2;
      Doc.Contents(Concat(SetLines(ReadLines(file.text), Names(arguments, n), Updates(arguments, n))))
    else file
  }

  ghost function Apply(schema: Schema, w: World, e: Event): World
    requires Enabled(w, e)
  {
    match e
    case Set(section, key, v) => w.(store := AfterSet(schema, w.store, section, key, v))
    case Reset(section, key) => w.(store := AfterReset(schema, w.store, section, key))
    case Load => w.(store := Loaded(schema, w.store, w.file))
    case Revert(order) => w.(store := Reverted(w.store, order))
    case KeepEdits => w.(store := ChangedOnDiskIs(w.store, false))
    case Notice => w.(store := FileNoticed(schema, w.store, w.file))
    case Elsewhere(file) => w.(file := file)
    case Save(access, run, order) =>
      var (store, file) := AfterSave(schema, w.store, w.file, access, run);
      World(store, file, if StartsJob(w.store, access) then S.Arguments(order, w.store.pending) else w.asked)
    case CliRuns => w.(file := AfterCli(w.file, w.asked))
    case CliEnds(id, ok) => if id == w.store.saveJob then w.(store := SaveEnded(schema, w.store, w.file, ok)) else w
  }

  /** As the constructor leaves it. */
  function Opened(schema: Schema, file: File): World {
    World(Loaded(schema, Store(map[], map[], 0, false, "", []), file), file, [])
  }

  // ----- what is always true of the values -----

  ghost predicate Inv(schema: Schema, s: Store) {
    && (forall k :: k in s.onDisk <==> schema.Knows(k))
    && (forall k :: k in s.pending ==> k in s.onDisk && s.pending[k] != s.onDisk[k])
    && (forall i :: 0 <= i < |schema.settings| ==> InForm(schema, s, schema.settings[i]))
  }

  /** Both values of a setting are in canonical form. */
  predicate InForm(schema: Schema, s: Store, o: Setting) {
    && KeyOf(o) in s.onDisk && IsCanonical(schema, o, s.onDisk[KeyOf(o)])
    && (KeyOf(o) in s.pending ==> IsCanonical(schema, o, s.pending[KeyOf(o)]))
  }

  predicate IsCanonical(schema: Schema, o: Setting, text: string) {
    Canonical(schema.floats, o.kind, text) == text
  }

  /** A setting's value after loading is the canonical form of what the file says, or of the default. */
  lemma {:induction false} LoadedValue(schema: Schema, values: map<string, string>, n: nat, i: nat)
    requires schema.Valid() && i < n <= |schema.settings|
    ensures var o := schema.settings[i];
            KeyOf(o) in OnDisk(schema, values, n)
            && OnDisk(schema, values, n)[KeyOf(o)]
                 == Canonical(schema.floats, o.kind, Lookup(values, KeyOf(o), o.default))
  {
    hide Canonical, Lookup;
    if i == n - 1 {
    } else {
      LoadedValue(schema, values, n - 1, i);
      assert KeyOf(schema.settings[i]) != KeyOf(schema.settings[n - 1]);
    }
  }

  lemma {:induction false} LoadedKeys(schema: Schema, values: map<string, string>, n: nat, k: string)
    requires n <= |schema.settings|
    ensures k in OnDisk(schema, values, n) <==> exists i :: 0 <= i < n && KeyOf(schema.settings[i]) == k
  {
    hide Canonical, Lookup;
    if n == 0 {
    } else {
      LoadedKeys(schema, values, n - 1, k);
      if k == KeyOf(schema.settings[n - 1]) {
        assert 0 <= n - 1 < n;
      }
    }
  }

  lemma LoadKeepsInv(schema: Schema, s: Store, file: File)
    requires schema.Valid()
    ensures Inv(schema, Loaded(schema, s, file))
  {
    hide Canonical, Lookup, ParseValues, OnDisk, ValueSignals;
    var t, values := Loaded(schema, s, file), ParseValues(Doc.TextOf(file));
    forall k ensures k in t.onDisk <==> schema.Knows(k) {
      LoadedKeys(schema, values, |schema.settings|, k);
    }
    forall i | 0 <= i < |schema.settings| ensures InForm(schema, t, schema.settings[i]) {
      var o := schema.settings[i];
      LoadedValue(schema, values, |schema.settings|, i);
      CanonicalIsIdempotent(schema.floats, o.kind, Lookup(values, KeyOf(o), o.default));
    }
  }

  lemma EditKeepsForm(schema: Schema, s: Store, o: Setting, v: Value, x: Setting)
    requires schema.floats.Valid() && InForm(schema, s, x) && (KeyOf(x) == KeyOf(o) ==> x == o)
    ensures InForm(schema, Edited(schema, s, o, v), x)
  {
    hide Serialize, Canonical, KeyOf;
    SerializedIsCanonical(schema.floats, o.kind, v);
  }

  lemma EditKeepsInv(schema: Schema, s: Store, o: Setting, v: Value)
    requires schema.Valid() && Inv(schema, s) && o in schema.settings
    ensures Inv(schema, Edited(schema, s, o, v))
  {
    hide Serialize, Canonical, KeyOf, InForm, HasPlainName, Floats.Valid;
    var t := Edited(schema, s, o, v);
    var j :| 0 <= j < |schema.settings| && schema.settings[j] == o;
    forall i | 0 <= i < |schema.settings| ensures InForm(schema, t, schema.settings[i]) {
      assert i < j ==> KeyOf(schema.settings[i]) != KeyOf(schema.settings[j]);
      assert j < i ==> KeyOf(schema.settings[j]) != KeyOf(schema.settings[i]);
      EditKeepsForm(schema, s, o, v, schema.settings[i]);
    }
    assert KeyOf(o) in s.onDisk by {
      KeyIsKnown(schema, s, o);
    }
  }

  lemma KeyIsKnown(schema: Schema, s: Store, o: Setting)
    requires Inv(schema, s) && o in schema.settings
    ensures KeyOf(o) in s.onDisk
  {
    hide KeyOf, Canonical;
    var j :| 0 <= j < |schema.settings| && schema.settings[j] == o;
    assert InForm(schema, s, schema.settings[j]);
  }

  lemma SameValuesKeepInv(schema: Schema, s: Store, t: Store)
    requires Inv(schema, s) && t.onDisk == s.onDisk && (t.pending == s.pending || t.pending == map[])
    ensures Inv(schema, t)
  {
    hide Canonical;
    forall i | 0 <= i < |schema.settings| ensures InForm(schema, t, schema.settings[i]) {
      assert InForm(schema, s, schema.settings[i]);
    }
  }

  lemma EventKeepsInv(schema: Schema, w: World, e: Event)
    requires schema.Valid() && Inv(schema, w.store) && Enabled(w, e)
    ensures Inv(schema, Apply(schema, w, e).store)
  {
    hide Inv, Loaded, Edited, FindFrom, Schema.Valid, IsRunFor, Patch.Valid, Patch.Sized, Lines, RevertSignals,
         DefaultOf, T.PatchText;
    var s, t := w.store, Apply(schema, w, e).store;
    match e {
      case Set(section, key, v) =>
        SetKeepsInv(schema, s, section, key, v);
      case Reset(section, key) =>
        ResetKeepsInv(schema, s, section, key);
      case Load => LoadKeepsInv(schema, s, w.file);
      case Notice =>
        if t == Loaded(schema, s, w.file) { LoadKeepsInv(schema, s, w.file); } else { SameValuesKeepInv(schema, s, t); }
      case Save(access, run, order) => SaveKeepsInv(schema, w, access, run, order);
      case CliEnds(id, ok) =>
        var ended := Emit(s.(saveJob := 0), [SavingChanged]);
        if id == s.saveJob && ok {
          LoadKeepsInv(schema, ended, w.file);
          SameValuesKeepInv(schema, Loaded(schema, ended, w.file), t);
        } else {
          SameValuesKeepInv(schema, s, t);
        }
      case _ => SameValuesKeepInv(schema, s, t);
    }
  }

  lemma SetKeepsInv(schema: Schema, s: Store, section: string, key: string, v: Value)
    requires schema.Valid() && Inv(schema, s)
    ensures Inv(schema, AfterSet(schema, s, section, key, v))
  {
    hide Inv, Edited, Schema.Valid;
    var found := FindFrom(schema.settings, section, key, 0);
    if found.Some? {
      EditKeepsInv(schema, s, found.value, v);
    }
  }

  lemma ResetKeepsInv(schema: Schema, s: Store, section: string, key: string)
    requires schema.Valid() && Inv(schema, s)
    ensures Inv(schema, AfterReset(schema, s, section, key))
  {
    hide Inv, Edited, Schema.Valid, DefaultOf;
    var found := FindFrom(schema.settings, section, key, 0);
    if found.Some? {
      EditKeepsInv(schema, s, found.value, DefaultOf(schema, found.value));
    }
  }

  lemma SaveKeepsInv(schema: Schema, w: World, access: Access, run: Patch, order: seq<string>)
    requires schema.Valid() && Inv(schema, w.store) && Enabled(w, Save(access, run, order))
    ensures Inv(schema, AfterSave(schema, w.store, w.file, access, run).0)
  {
    hide Inv, Loaded, Schema.Valid, Patch.Valid, Patch.Sized, Lines, T.PatchText;
    var (t, after) := AfterSave(schema, w.store, w.file, access, run);
    if ReplacesFile(w.store, w.file, access) {
      LoadKeepsInv(schema, w.store, after);
      SameValuesKeepInv(schema, Loaded(schema, w.store, after), t);
    } else {
      SameValuesKeepInv(schema, w.store, t);
    }
  }

  // ----- what was read is what the text last read says -----

  ghost predicate OnDiskIsLoaded(schema: Schema, s: Store) {
    s.onDisk == OnDisk(schema, ParseValues(s.loaded), |schema.settings|)
  }

  lemma LoadIsRead(schema: Schema, s: Store, file: File)
    ensures OnDiskIsLoaded(schema, Loaded(schema, s, file))
  {
    hide ParseValues, OnDisk, ValueSignals;
  }

  lemma EventKeepsLoaded(schema: Schema, w: World, e: Event)
    requires OnDiskIsLoaded(schema, w.store) && Enabled(w, e)
    ensures OnDiskIsLoaded(schema, Apply(schema, w, e).store)
  {
    hide Loaded, FindFrom, Patch.Valid, Patch.Sized, Lines, RevertSignals, DefaultOf, T.PatchText, ParseValues, OnDisk;
    var (_, after) := if e.Save? then AfterSave(schema, w.store, w.file, e.access, e.run) else (w.store, w.file);
    LoadIsRead(schema, w.store, after);
    LoadIsRead(schema, Emit(w.store.(saveJob := 0), [SavingChanged]), w.file);
  }

  // ----- runs -----

  ghost predicate IsRun(schema: Schema, worlds: seq<World>, events: seq<Event>) {
    && schema.Valid()
    && |worlds| == |events| + 1
    && worlds[0] == Opened(schema, worlds[0].file)
    && forall n :: 0 <= n < |events| ==>
         Enabled(worlds[n], events[n]) && worlds[n + 1] == Apply(schema, worlds[n], events[n])
  }

  lemma {:induction false} RunKeepsInv(schema: Schema, worlds: seq<World>, events: seq<Event>, n: nat)
    requires IsRun(schema, worlds, events) && n < |worlds|
    ensures Inv(schema, worlds[n].store)
  {
    hide Inv, Apply, Enabled, Schema.Valid, Loaded;
    if n == 0 {
      LoadKeepsInv(schema, Store(map[], map[], 0, false, "", []), worlds[0].file);
    } else {
      RunKeepsInv(schema, worlds, events, n - 1);
      EventKeepsInv(schema, worlds[n - 1], events[n - 1]);
    }
  }

  lemma {:induction false} RunKeepsLoaded(schema: Schema, worlds: seq<World>, events: seq<Event>, n: nat)
    requires IsRun(schema, worlds, events) && n < |worlds|
    ensures OnDiskIsLoaded(schema, worlds[n].store)
  {
    hide OnDiskIsLoaded, Apply, Enabled, Schema.Valid, Loaded;
    if n == 0 {
      LoadIsRead(schema, Store(map[], map[], 0, false, "", []), worlds[0].file);
    } else {
      RunKeepsLoaded(schema, worlds, events, n - 1);
      EventKeepsLoaded(schema, worlds[n - 1], events[n - 1]);
    }
  }

  /** The store is dirty exactly when some setting shows another value than the one last read from disk. */
  lemma DirtyMeansDifferent(schema: Schema, worlds: seq<World>, events: seq<Event>, n: nat)
    requires IsRun(schema, worlds, events) && n < |worlds|
    ensures var s := worlds[n].store;
            IsDirty(s) <==> exists k :: schema.Knows(k) && Shown(s, k) != Lookup(s.onDisk, k, "")
  {
    hide IsRun, Schema.Knows, Canonical, InForm;
    RunKeepsInv(schema, worlds, events, n);
    var s := worlds[n].store;
    if IsDirty(s) {
      var k :| k in s.pending;
      assert schema.Knows(k) && Shown(s, k) != Lookup(s.onDisk, k, "");
    }
  }

  /** An edit shows the value's text, whatever was shown before; one back to the value on disk is no edit any more. */
  lemma EditIsShown(schema: Schema, w: World, o: Setting, v: Value)
    requires schema.Valid() && Inv(schema, w.store) && o in schema.settings
    ensures var t := AfterSet(schema, w.store, o.section, o.key, v);
            var text := Serialize(schema.floats, o.kind, v);
            && Shown(t, KeyOf(o)) == text
            && (KeyOf(o) in t.pending <==> text != w.store.onDisk[KeyOf(o)])
            && (forall k :: k != KeyOf(o) ==> Shown(t, k) == Shown(w.store, k))
  {
    hide Serialize, Canonical, KeyOf, InForm, Inv, Schema.Valid;
    SameKeySameSetting(schema, o, FindFrom(schema.settings, o.section, o.key, 0));
    KeyIsKnown(schema, w.store, o);
    NoIdleEdit(schema, w.store, KeyOf(o));
  }

  /** A reset shows the canonical default, and is an edit exactly if the disk has another value. */
  lemma ResetShowsTheDefault(schema: Schema, w: World, o: Setting)
    requires schema.Valid() && Inv(schema, w.store) && o in schema.settings
    ensures var t := Apply(schema, w, Reset(o.section, o.key)).store;
            var text := Canonical(schema.floats, o.kind, o.default);
            && Shown(t, KeyOf(o)) == text
            && (KeyOf(o) in t.pending <==> text != w.store.onDisk[KeyOf(o)])
            && (forall k :: k != KeyOf(o) ==> Shown(t, k) == Shown(w.store, k))
  {
    hide Serialize, Deserialize, KeyOf, InForm, Inv, Floats.Valid, HasPlainName, Edited, FindFrom;
    EditIsShown(schema, w, o, DefaultOf(schema, o));
    SameKeySameSetting(schema, o, FindFrom(schema.settings, o.section, o.key, 0));
    CanonicalIsIdempotent(schema.floats, o.kind, o.default);
  }

  /** A revert shows what is on disk, and touches nothing else. */
  lemma RevertShowsTheDisk(schema: Schema, w: World, order: seq<string>)
    requires Enumerates(order, w.store.pending.Keys)
    ensures var t := Apply(schema, w, Revert(order)).store;
            && !IsDirty(t) && t.onDisk == w.store.onDisk && t.loaded == w.store.loaded && t.saveJob == w.store.saveJob
            && forall k :: Shown(t, k) == Lookup(w.store.onDisk, k, "")
  {
    hide RevertSignals;
  }

  /** A setting the schema does not know cannot be edited. */
  lemma UnknownIsIgnored(schema: Schema, w: World, section: string, key: string, v: Value)
    requires forall o :: o in schema.settings ==> o.section != section || o.key != key
    ensures Apply(schema, w, Set(section, key, v)) == w && Apply(schema, w, Reset(section, key)) == w
  {
    hide Edited, DefaultOf;
  }

  lemma NoIdleEdit(schema: Schema, s: Store, k: string)
    requires Inv(schema, s)
    ensures k in s.pending ==> k in s.onDisk && s.pending[k] != s.onDisk[k]
  {
    hide InForm;
  }

  lemma SameKeySameSetting(schema: Schema, o: Setting, found: Option<Setting>)
    requires schema.Valid() && o in schema.settings && found == FindFrom(schema.settings, o.section, o.key, 0)
    ensures found == Some(o)
  {
    var i :| 0 <= i < |schema.settings| && schema.settings[i] == o;
    var j :| 0 <= j < |schema.settings| && schema.settings[j] == found.value;
    assert KeyOf(schema.settings[i]) == KeyOf(schema.settings[j]);
  }

  // ----- notifications -----

  function CountOf(signals: seq<Signal>, g: Signal): nat {
    if signals == [] then 0 else CountOf(signals[..|signals| - 1], g) + if signals[|signals| - 1] == g then 1 else 0
  }

  lemma {:induction false} CountOfConcat(a: seq<Signal>, b: seq<Signal>, g: Signal)
    ensures CountOf(a + b, g) == CountOf(a, g) + CountOf(b, g)
  {
    if b == [] {
      assert a + b == a;
    } else {
      var n := |b| - 1;
      CountOfConcat(a, b[..n], g);
      assert (a + b)[..|a + b| - 1] == a + b[..n];
    }
  }

  lemma CountOfEmit(s: Store, more: seq<Signal>, g: Signal)
    ensures CountOf(Emit(s, more).signals, g) == CountOf(s.signals, g) + CountOf(more, g)
  {
    CountOfConcat(s.signals, more, g);
  }

  lemma {:induction false} NoneInValueSignals(settings: seq<Setting>, n: nat, g: Signal)
    requires n <= |settings| && !g.ValueChanged?
    ensures CountOf(ValueSignals(settings, n), g) == 0
  {
    if n == 0 {
    } else {
      NoneInValueSignals(settings, n - 1, g);
      CountOfConcat(ValueSignals(settings, n - 1), [ValueChanged(settings[n - 1].section, settings[n - 1].key)], g);
    }
  }

  lemma {:induction false} NoneInRevertSignals(order: seq<string>, g: Signal)
    requires !g.ValueChanged?
    ensures CountOf(RevertSignals(order), g) == 0
  {
    hide SlotOf;
    if order == [] {
    } else {
      var slot := SlotOf(order[|order| - 1]);
      NoneInRevertSignals(order[..|order| - 1], g);
      CountOfConcat(RevertSignals(order[..|order| - 1]), [ValueChanged(slot.section, slot.key)], g);
    }
  }

  function Flag(b: bool): nat {
    if b then 1 else 0
  }

  /** From s to t each of the three states is announced once if it changed and not at all otherwise. */
  predicate Announced(s: Store, t: Store) {
    && CountOf(t.signals, DirtyChanged) == CountOf(s.signals, DirtyChanged) + Flag(IsDirty(s) != IsDirty(t))
    && CountOf(t.signals, SavingChanged)
         == CountOf(s.signals, SavingChanged) + Flag((s.saveJob != 0) != (t.saveJob != 0))
    && CountOf(t.signals, ChangedOnDiskChanged)
         == CountOf(s.signals, ChangedOnDiskChanged) + Flag(s.changedOnDisk != t.changedOnDisk)
  }

  /** How often one more list of signals announces each state. */
  lemma EmitCounts(s: Store, more: seq<Signal>)
    ensures CountOf(Emit(s, more).signals, DirtyChanged)
        == CountOf(s.signals, DirtyChanged) + CountOf(more, DirtyChanged)
    ensures CountOf(Emit(s, more).signals, SavingChanged)
        == CountOf(s.signals, SavingChanged) + CountOf(more, SavingChanged)
    ensures CountOf(Emit(s, more).signals, ChangedOnDiskChanged)
         == CountOf(s.signals, ChangedOnDiskChanged) + CountOf(more, ChangedOnDiskChanged)
  {
    CountOfEmit(s, more, DirtyChanged);
    CountOfEmit(s, more, SavingChanged);
    CountOfEmit(s, more, ChangedOnDiskChanged);
  }

  lemma CountOne(g: Signal, h: Signal)
    ensures CountOf([g], h) == Flag(g == h)
  {
    assert [g][..0] == [];
  }

  lemma EmitOne(s: Store, g: Signal)
    ensures forall h :: CountOf(Emit(s, [g]).signals, h) == CountOf(s.signals, h) + Flag(g == h)
  {
    forall h ensures CountOf(Emit(s, [g]).signals, h) == CountOf(s.signals, h) + Flag(g == h) {
      CountOfEmit(s, [g], h);
      CountOne(g, h);
    }
  }

  lemma OnDiskFlagAnnounced(s: Store, changed: bool)
    ensures Announced(s, ChangedOnDiskIs(s, changed))
  {
    hide CountOf;
    EmitOne(s.(changedOnDisk := changed), ChangedOnDiskChanged);
  }

  lemma LoadIsAnnounced(schema: Schema, s: Store, file: File)
    ensures Announced(s, Loaded(schema, s, file))
  {
    hide CountOf, ParseValues, OnDisk, ValueSignals;
    var n, text := |schema.settings|, Doc.TextOf(file);
    EmitOne(s, LoadFailed);
    var failed := if file.Unreadable? then Emit(s, [LoadFailed]) else s;
    OnDiskFlagAnnounced(failed, false);
    var read := ChangedOnDiskIs(failed, false);
    var clean := read.(pending := map[], onDisk := OnDisk(schema, ParseValues(text), n), loaded := text);
    var values := ValueSignals(schema.settings, n);
    EmitCounts(clean, values);
    NoneInValueSignals(schema.settings, n, DirtyChanged);
    NoneInValueSignals(schema.settings, n, SavingChanged);
    NoneInValueSignals(schema.settings, n, ChangedOnDiskChanged);
    var listed := Emit(clean, values);
    EmitOne(listed, ProblemsChanged);
    var told := Emit(listed, [ProblemsChanged]);
    EmitOne(told, DirtyChanged);
    EmitOne(if IsDirty(s) then Emit(told, [DirtyChanged]) else told, WritableChanged);
  }

  lemma EditIsAnnounced(schema: Schema, s: Store, o: Setting, v: Value)
    ensures Announced(s, Edited(schema, s, o, v))
  {
    hide CountOf, Serialize, Shown, Lookup;
    var k, text := KeyOf(o), Serialize(schema.floats, o.kind, v);
    if text != Shown(s, k) {
      var t := s.(pending := if text == Lookup(s.onDisk, k, "") then s.pending - {k} else s.pending[k := text]);
      var first := ValueChanged(o.section, o.key);
      EmitOne(t, first);
      EmitOne(Emit(t, [first]), DirtyChanged);
      assert t.signals + ([first] + [DirtyChanged]) == t.signals + [first] + [DirtyChanged];
      assert [first] + [] == [first];
    }
  }

  lemma RevertIsAnnounced(s: Store, order: seq<string>)
    ensures Announced(s, Reverted(s, order))
  {
    hide CountOf, RevertSignals;
    if IsDirty(s) {
      var t := s.(pending := map[]);
      EmitCounts(t, RevertSignals(order));
      NoneInRevertSignals(order, DirtyChanged);
      NoneInRevertSignals(order, SavingChanged);
      NoneInRevertSignals(order, ChangedOnDiskChanged);
      EmitOne(Emit(t, RevertSignals(order)), DirtyChanged);
      assert t.signals + (RevertSignals(order) + [DirtyChanged]) == t.signals + RevertSignals(order) + [DirtyChanged];
    }
  }

  lemma EndIsAnnounced(schema: Schema, s: Store, file: File, ok: bool)
    requires s.saveJob != 0
    ensures Announced(s, SaveEnded(schema, s, file, ok))
  {
    hide CountOf, Loaded;
    var idle := s.(saveJob := 0);
    EmitOne(idle, SavingChanged);
    var t := Emit(idle, [SavingChanged]);
    LoadIsAnnounced(schema, t, file);
    LoadKeepsJob(schema, t, file);
    EmitOne(if ok then Loaded(schema, t, file) else t, SaveFinished(ok));
  }

  lemma LoadKeepsJob(schema: Schema, s: Store, file: File)
    ensures Loaded(schema, s, file).saveJob == s.saveJob
  {
  }

  lemma SaveIsAnnounced(schema: Schema, w: World, access: Access, run: Patch, order: seq<string>)
    requires Enabled(w, Save(access, run, order))
    ensures Announced(w.store, AfterSave(schema, w.store, w.file, access, run).0)
  {
    hide CountOf, Loaded, Patch.Valid, Patch.Sized, Lines, T.PatchText;
    var s, after := w.store, AfterSave(schema, w.store, w.file, access, run).1;
    LoadIsAnnounced(schema, s, after);
    EmitOne(Loaded(schema, s, after), SaveFinished(true));
    EmitOne(s, SaveFinished(true));
    EmitOne(s, SaveFinished(false));
    if access.ThroughCli? {
      EmitOne(s.(saveJob := access.job), SavingChanged);
    }
  }

  /** Every change of the dirty, saving and changed-on-disk states is announced exactly once, and nothing else is. */
  lemma TransitionsAreAnnounced(schema: Schema, w: World, e: Event)
    requires Enabled(w, e)
    ensures Announced(w.store, Apply(schema, w, e).store)
  {
    hide CountOf, Announced, Loaded, Edited, Reverted, FindFrom, ChangedOnDiskIs, SaveEnded, AfterSave, Patch.Valid,
         Patch.Sized, DefaultOf;
    var s := w.store;
    NothingToAnnounce(s);
    match e {
      case Set(section, key, v) =>
        var found := FindFrom(schema.settings, section, key, 0);
        if found.Some? { EditIsAnnounced(schema, s, found.value, v); }
      case Reset(section, key) =>
        var found := FindFrom(schema.settings, section, key, 0);
        if found.Some? { EditIsAnnounced(schema, s, found.value, DefaultOf(schema, found.value)); }
      case Load => LoadIsAnnounced(schema, s, w.file);
      case Revert(order) => RevertIsAnnounced(s, order);
      case KeepEdits => OnDiskFlagAnnounced(s, false);
      case Notice =>
        LoadIsAnnounced(schema, s, w.file);
        OnDiskFlagAnnounced(s, true);
      case Save(access, run, order) => SaveIsAnnounced(schema, w, access, run, order);
      case CliEnds(id, ok) =>
        if id == s.saveJob { EndIsAnnounced(schema, s, w.file, ok); }
      case Elsewhere(_) =>
      case CliRuns =>
    }
  }

  lemma NothingToAnnounce(s: Store)
    ensures Announced(s, s)
  {
  }

  predicate Odd(n: nat) {
    n % 2 == 1
  }

  /** Over a whole session the announcements alone tell the three states: each is on after an odd number of them. */
  lemma {:induction false} AnnouncementsTellTheState(schema: Schema, worlds: seq<World>, events: seq<Event>, n: nat)
    requires IsRun(schema, worlds, events) && n < |worlds|
    ensures var s := worlds[n].store;
            && (IsDirty(s) <==> Odd(CountOf(s.signals, DirtyChanged)))
            && (s.saveJob != 0 <==> Odd(CountOf(s.signals, SavingChanged)))
            && (s.changedOnDisk <==> Odd(CountOf(s.signals, ChangedOnDiskChanged)))
  {
    hide CountOf, Loaded, Apply, Enabled, Schema.Valid;
    if n == 0 {
      var empty := Store(map[], map[], 0, false, "", []);
      LoadIsAnnounced(schema, empty, worlds[0].file);
      OpenedIsQuiet(schema, worlds[0].file);
    } else {
      AnnouncementsTellTheState(schema, worlds, events, n - 1);
      TransitionsAreAnnounced(schema, worlds[n - 1], events[n - 1]);
    }
  }

  lemma OpenedIsQuiet(schema: Schema, file: File)
    ensures var s := Opened(schema, file).store;
            !IsDirty(s) && s.saveJob == 0 && !s.changedOnDisk
    ensures forall g :: CountOf([], g) == 0
  {
  }

  // ----- how saves end -----

  predicate IsSaveSignal(g: Signal) {
    g.SaveFinished?
  }

  /** What a load announces besides the values: a failure exactly when the file cannot be read. */
  lemma LoadAnnounces(schema: Schema, s: Store, file: File, g: Signal)
    requires g == LoadFailed || g == ProblemsChanged || g == WritableChanged || IsSaveSignal(g)
    ensures CountOf(Loaded(schema, s, file).signals, g)
         == CountOf(s.signals, g)
            + if g.LoadFailed? then Flag(file.Unreadable?) else Flag(g == ProblemsChanged || g == WritableChanged)
  {
    hide CountOf, ParseValues, OnDisk, ValueSignals;
    var n, text := |schema.settings|, Doc.TextOf(file);
    EmitOne(s, LoadFailed);
    var failed := if file.Unreadable? then Emit(s, [LoadFailed]) else s;
    EmitOne(failed.(changedOnDisk := false), ChangedOnDiskChanged);
    var read := ChangedOnDiskIs(failed, false);
    var clean := read.(pending := map[], onDisk := OnDisk(schema, ParseValues(text), n), loaded := text);
    var listed := Emit(clean, ValueSignals(schema.settings, n));
    CountOfEmit(clean, ValueSignals(schema.settings, n), g);
    NoneInValueSignals(schema.settings, n, g);
    EmitOne(listed, ProblemsChanged);
    var told := Emit(listed, [ProblemsChanged]);
    EmitOne(told, DirtyChanged);
    EmitOne(if IsDirty(s) then Emit(told, [DirtyChanged]) else told, WritableChanged);
  }

  lemma EditEndsNoSave(schema: Schema, s: Store, o: Setting, v: Value, g: Signal)
    requires IsSaveSignal(g)
    ensures CountOf(Edited(schema, s, o, v).signals, g) == CountOf(s.signals, g)
  {
    hide CountOf, Serialize, Shown, Lookup;
    var k, text := KeyOf(o), Serialize(schema.floats, o.kind, v);
    if text != Shown(s, k) {
      var t := s.(pending := if text == Lookup(s.onDisk, k, "") then s.pending - {k} else s.pending[k := text]);
      var first := ValueChanged(o.section, o.key);
      EmitOne(t, first);
      EmitOne(Emit(t, [first]), DirtyChanged);
      assert t.signals + ([first] + [DirtyChanged]) == t.signals + [first] + [DirtyChanged];
      assert [first] + [] == [first];
    }
  }

  lemma RevertEndsNoSave(s: Store, order: seq<string>, g: Signal)
    requires IsSaveSignal(g)
    ensures CountOf(Reverted(s, order).signals, g) == CountOf(s.signals, g)
  {
    hide CountOf, RevertSignals;
    if IsDirty(s) {
      var t := s.(pending := map[]);
      CountOfEmit(t, RevertSignals(order), g);
      NoneInRevertSignals(order, g);
      EmitOne(Emit(t, RevertSignals(order)), DirtyChanged);
      assert t.signals + (RevertSignals(order) + [DirtyChanged]) == t.signals + RevertSignals(order) + [DirtyChanged];
    }
  }

  /** How an event ends a save, if it ends one. */
  function EndsSave(w: World, e: Event): Option<bool> {
    match e
    case Save(access, _, _) =>
      if w.store.saveJob != 0 then None
      else if w.store.pending == map[] then Some(true)
      else
        (match access
         case Direct(committed) => Some(committed && !w.file.Unreadable?)
         case ThroughCli(_) => None
         case Nobody => Some(false))
    case CliEnds(id, ok) => if id == w.store.saveJob then Some(ok) else None
    case _ => None
  }

  lemma SaveAnnouncesItsEnd(schema: Schema, w: World, access: Access, run: Patch, order: seq<string>, b: bool)
    requires Enabled(w, Save(access, run, order))
    ensures CountOf(AfterSave(schema, w.store, w.file, access, run).0.signals, SaveFinished(b))
         == CountOf(w.store.signals, SaveFinished(b)) + Flag(EndsSave(w, Save(access, run, order)) == Some(b))
  {
    hide CountOf, Loaded, Patch.Valid, Patch.Sized, Lines, T.PatchText;
    var s, after := w.store, AfterSave(schema, w.store, w.file, access, run).1;
    LoadAnnounces(schema, s, after, SaveFinished(b));
    EmitOne(Loaded(schema, s, after), SaveFinished(true));
    EmitOne(s, SaveFinished(true));
    EmitOne(s, SaveFinished(false));
    if access.ThroughCli? {
      EmitOne(s.(saveJob := access.job), SavingChanged);
    }
  }

  lemma ToolAnnouncesItsEnd(schema: Schema, s: Store, file: File, ok: bool, b: bool)
    ensures CountOf(SaveEnded(schema, s, file, ok).signals, SaveFinished(b))
         == CountOf(s.signals, SaveFinished(b)) + Flag(ok == b)
  {
    hide CountOf, Loaded;
    var t := Emit(s.(saveJob := 0), [SavingChanged]);
    EmitOne(s.(saveJob := 0), SavingChanged);
    LoadAnnounces(schema, t, file, SaveFinished(b));
    EmitOne(if ok then Loaded(schema, t, file) else t, SaveFinished(true));
    EmitOne(if ok then Loaded(schema, t, file) else t, SaveFinished(false));
  }

  /** An event announces the end of a save exactly when it ends one, once, and says how it ended. */
  lemma EndsAreAnnounced(schema: Schema, w: World, e: Event, b: bool)
    requires Enabled(w, e)
    ensures CountOf(Apply(schema, w, e).store.signals, SaveFinished(b))
         == CountOf(w.store.signals, SaveFinished(b)) + Flag(EndsSave(w, e) == Some(b))
  {
    hide CountOf, Loaded, Edited, Reverted, FindFrom, SaveEnded, AfterSave, Patch.Valid, Patch.Sized, DefaultOf;
    var s, g := w.store, SaveFinished(b);
    match e {
      case Set(section, key, v) =>
        var found := FindFrom(schema.settings, section, key, 0);
        if found.Some? { EditEndsNoSave(schema, s, found.value, v, g); }
      case Reset(section, key) =>
        var found := FindFrom(schema.settings, section, key, 0);
        if found.Some? { EditEndsNoSave(schema, s, found.value, DefaultOf(schema, found.value), g); }
      case Load => LoadAnnounces(schema, s, w.file, g);
      case Revert(order) => RevertEndsNoSave(s, order, g);
      case KeepEdits => EmitOne(s.(changedOnDisk := false), ChangedOnDiskChanged);
      case Notice =>
        LoadAnnounces(schema, s, w.file, g);
        EmitOne(s.(changedOnDisk := true), ChangedOnDiskChanged);
      case Save(access, run, order) => SaveAnnouncesItsEnd(schema, w, access, run, order, b);
      case CliEnds(_, ok) => ToolAnnouncesItsEnd(schema, s, w.file, ok, b);
      case Elsewhere(_) =>
      case CliRuns =>
    }
  }

  /**
   * What the announced end means. A save that has ended well leaves no edits, and unless there were none to
   * save it has read the file again; one that has failed keeps the edits and all that is known of the file.
   * So with edits to save the announcement is true if and only if they are gone.
   */
  lemma EndMeansOutcome(schema: Schema, w: World, e: Event)
    requires Enabled(w, e) && EndsSave(w, e).Some?
    ensures var s, t := w.store, Apply(schema, w, e);
            && t.store.saveJob == 0
            && (EndsSave(w, e).value ==>
                  && !IsDirty(t.store)
                  && (IsDirty(s) || e.CliEnds? ==> t.store.loaded == Doc.TextOf(t.file) && !t.store.changedOnDisk))
            && (!EndsSave(w, e).value ==>
                  && t.file == w.file && t.store.pending == s.pending && t.store.onDisk == s.onDisk
                  && t.store.loaded == s.loaded && t.store.changedOnDisk == s.changedOnDisk)
            && (IsDirty(s) ==> (EndsSave(w, e).value <==> !IsDirty(t.store)))
  {
    hide ParseValues, OnDisk, ValueSignals, Patch.Valid, Patch.Sized, Lines, T.PatchText;
  }

  /** How many of the first n events began a save: those of a save asked for while none was running. */
  function SavesBegun(worlds: seq<World>, events: seq<Event>, n: nat): nat
    requires n <= |events| <= |worlds|
  {
    if n == 0 then 0
    else SavesBegun(worlds, events, n - 1) + Flag(events[n - 1].Save? && worlds[n - 1].store.saveJob == 0)
  }

  /** How many of the first n events ended a save well (or badly). */
  function SavesEnded(worlds: seq<World>, events: seq<Event>, n: nat, b: bool): nat
    requires n <= |events| <= |worlds|
  {
    if n == 0 then 0
    else SavesEnded(worlds, events, n - 1, b) + Flag(EndsSave(worlds[n - 1], events[n - 1]) == Some(b))
  }

  lemma BeginsOrEnds(schema: Schema, w: World, e: Event)
    requires Enabled(w, e)
    ensures Flag(EndsSave(w, e) == Some(true)) + Flag(EndsSave(w, e) == Some(false))
            + Flag(Apply(schema, w, e).store.saveJob != 0)
         == Flag(w.store.saveJob != 0) + Flag(e.Save? && w.store.saveJob == 0)
  {
    hide FindFrom, Patch.Valid, Patch.Sized, Lines, RevertSignals, DefaultOf, T.PatchText, ParseValues, OnDisk,
         ValueSignals;
  }

  /**
   * Over a whole session every save is announced exactly once, when it ends and as it ended: the announcements
   * are as many as the saves begun, but for one that is still running.
   */
  lemma {:induction false} EverySaveIsAnnounced(schema: Schema, worlds: seq<World>, events: seq<Event>, n: nat)
    requires IsRun(schema, worlds, events) && n <= |events|
    ensures var signals := worlds[n].store.signals;
            && (forall b :: CountOf(signals, SaveFinished(b)) == SavesEnded(worlds, events, n, b))
            && CountOf(signals, SaveFinished(true)) + CountOf(signals, SaveFinished(false))
               + Flag(worlds[n].store.saveJob != 0) == SavesBegun(worlds, events, n)
  {
    hide CountOf, Apply, Enabled, Schema.Valid, Loaded, EndsSave, IsDirty;
    if n == 0 {
      var empty := Store(map[], map[], 0, false, "", []);
      LoadAnnounces(schema, empty, worlds[0].file, SaveFinished(true));
      LoadAnnounces(schema, empty, worlds[0].file, SaveFinished(false));
      LoadKeepsJob(schema, empty, worlds[0].file);
      OpenedIsQuiet(schema, worlds[0].file);
    } else {
      EverySaveIsAnnounced(schema, worlds, events, n - 1);
      EndsAreAnnounced(schema, worlds[n - 1], events[n - 1], true);
      EndsAreAnnounced(schema, worlds[n - 1], events[n - 1], false);
      BeginsOrEnds(schema, worlds[n - 1], events[n - 1]);
    }
  }

  // ----- no change goes untold -----

  function Told(o: Setting): Signal {
    ValueChanged(o.section, o.key)
  }

  lemma {:induction false} InValueSignals(settings: seq<Setting>, n: nat, i: nat)
    requires i < n <= |settings|
    ensures CountOf(ValueSignals(settings, n), Told(settings[i])) > 0
  {
    CountOfConcat(ValueSignals(settings, n - 1), [Told(settings[n - 1])], Told(settings[i]));
    if i < n - 1 {
      InValueSignals(settings, n - 1, i);
    } else {
      CountOne(Told(settings[i]), Told(settings[i]));
    }
  }

  lemma {:induction false} InRevertSignals(order: seq<string>, o: Setting)
    requires HasPlainName(o) && KeyOf(o) in order
    ensures CountOf(RevertSignals(order), Told(o)) > 0
  {
    hide SlotOf, KeyOf, HasPlainName;
    var init, k := order[..|order| - 1], order[|order| - 1];
    var slot := SlotOf(k);
    CountOfConcat(RevertSignals(init), [ValueChanged(slot.section, slot.key)], Told(o));
    CountOne(ValueChanged(slot.section, slot.key), Told(o));
    if k == KeyOf(o) {
      SlotOfSetting(o);
    } else {
      assert KeyOf(o) in init;
      InRevertSignals(init, o);
    }
  }

  lemma SlotOfSetting(o: Setting)
    requires HasPlainName(o)
    ensures SlotOf(KeyOf(o)) == Slot(o.section, o.key)
  {
    FirstSlashAfter(o.section, o.key);
    var k := KeyOf(o);
    assert k[..|o.section|] == o.section && k[|o.section| + 1..] == o.key;
  }

  lemma LoadTells(schema: Schema, s: Store, file: File, i: nat)
    requires i < |schema.settings|
    ensures var told := Told(schema.settings[i]);
            CountOf(Loaded(schema, s, file).signals, told) > CountOf(s.signals, told)
  {
    hide CountOf, ParseValues, OnDisk, ValueSignals;
    var n, text, g := |schema.settings|, Doc.TextOf(file), Told(schema.settings[i]);
    EmitOne(s, LoadFailed);
    var failed := if file.Unreadable? then Emit(s, [LoadFailed]) else s;
    EmitOne(failed.(changedOnDisk := false), ChangedOnDiskChanged);
    var read := ChangedOnDiskIs(failed, false);
    var clean := read.(pending := map[], onDisk := OnDisk(schema, ParseValues(text), n), loaded := text);
    var listed := Emit(clean, ValueSignals(schema.settings, n));
    CountOfEmit(clean, ValueSignals(schema.settings, n), g);
    InValueSignals(schema.settings, n, i);
    EmitOne(listed, ProblemsChanged);
    var told := Emit(listed, [ProblemsChanged]);
    EmitOne(told, DirtyChanged);
    EmitOne(if IsDirty(s) then Emit(told, [DirtyChanged]) else told, WritableChanged);
  }

  predicate ToldIfChanged(s: Store, t: Store, o: Setting) {
    Shown(t, KeyOf(o)) != Shown(s, KeyOf(o)) ==> CountOf(t.signals, Told(o)) > CountOf(s.signals, Told(o))
  }

  lemma SameNameSameSetting(schema: Schema, i: nat, j: nat)
    requires schema.Valid() && i < |schema.settings| && j < |schema.settings|
    requires KeyOf(schema.settings[i]) == KeyOf(schema.settings[j])
    ensures i == j
  {
    hide KeyOf, HasPlainName;
  }

  lemma EditTells(schema: Schema, s: Store, o: Setting, v: Value, i: nat)
    requires schema.Valid() && o in schema.settings && i < |schema.settings|
    ensures ToldIfChanged(s, Edited(schema, s, o, v), schema.settings[i])
  {
    hide CountOf, Serialize, HasPlainName, KeyOf, Floats.Valid;
    var k, text := KeyOf(o), Serialize(schema.floats, o.kind, v);
    var j :| 0 <= j < |schema.settings| && schema.settings[j] == o;
    if KeyOf(schema.settings[i]) == k {
      SameNameSameSetting(schema, i, j);
      if text != Shown(s, k) {
        var t := s.(pending := if text == Lookup(s.onDisk, k, "") then s.pending - {k} else s.pending[k := text]);
        EmitOne(t, Told(o));
        EmitOne(Emit(t, [Told(o)]), DirtyChanged);
        assert t.signals + ([Told(o)] + [DirtyChanged]) == t.signals + [Told(o)] + [DirtyChanged];
        assert [Told(o)] + [] == [Told(o)];
      }
    }
  }

  lemma RevertTells(schema: Schema, s: Store, order: seq<string>, i: nat)
    requires schema.Valid() && i < |schema.settings| && Enumerates(order, s.pending.Keys)
    ensures ToldIfChanged(s, Reverted(s, order), schema.settings[i])
  {
    hide CountOf, RevertSignals, HasPlainName, KeyOf;
    var o, t := schema.settings[i], s.(pending := map[]);
    if KeyOf(o) in s.pending {
      assert KeyOf(o) in order;
      assert HasPlainName(o);
      InRevertSignals(order, o);
      CountOfEmit(t, RevertSignals(order), Told(o));
      EmitOne(Emit(t, RevertSignals(order)), DirtyChanged);
      assert t.signals + (RevertSignals(order) + [DirtyChanged]) == t.signals + RevertSignals(order) + [DirtyChanged];
    }
  }

  lemma SaveTells(schema: Schema, w: World, access: Access, run: Patch, order: seq<string>, i: nat)
    requires Enabled(w, Save(access, run, order)) && i < |schema.settings|
    ensures ToldIfChanged(w.store, AfterSave(schema, w.store, w.file, access, run).0, schema.settings[i])
  {
    hide CountOf, Loaded, Patch.Valid, Patch.Sized, Lines, T.PatchText, KeyOf;
    var after := AfterSave(schema, w.store, w.file, access, run).1;
    LoadTells(schema, w.store, after, i);
    EmitOne(Loaded(schema, w.store, after), SaveFinished(true));
  }

  lemma EndTells(schema: Schema, s: Store, file: File, ok: bool, i: nat)
    requires i < |schema.settings|
    ensures ToldIfChanged(s, SaveEnded(schema, s, file, ok), schema.settings[i])
  {
    hide CountOf, Loaded, KeyOf;
    var t := Emit(s.(saveJob := 0), [SavingChanged]);
    EmitOne(s.(saveJob := 0), SavingChanged);
    LoadTells(schema, t, file, i);
    EmitOne(if ok then Loaded(schema, t, file) else t, SaveFinished(ok));
  }

  /** Whatever happens, a setting whose shown value changes is announced by name. */
  lemma ChangesAreTold(schema: Schema, w: World, e: Event, i: nat)
    requires schema.Valid() && Enabled(w, e) && i < |schema.settings|
    ensures ToldIfChanged(w.store, Apply(schema, w, e).store, schema.settings[i])
  {
    hide CountOf, Loaded, Edited, Reverted, FindFrom, SaveEnded, AfterSave, Patch.Valid, Patch.Sized, DefaultOf,
         Schema.Valid, KeyOf;
    var s := w.store;
    match e {
      case Set(section, key, v) =>
        var found := FindFrom(schema.settings, section, key, 0);
        if found.Some? { EditTells(schema, s, found.value, v, i); }
      case Reset(section, key) =>
        var found := FindFrom(schema.settings, section, key, 0);
        if found.Some? { EditTells(schema, s, found.value, DefaultOf(schema, found.value), i); }
      case Load => LoadTells(schema, s, w.file, i);
      case Revert(order) => RevertTells(schema, s, order, i);
      case Notice => LoadTells(schema, s, w.file, i);
      case Save(access, run, order) => SaveTells(schema, w, access, run, order, i);
      case CliEnds(id, ok) => EndTells(schema, s, w.file, ok, i);
      case _ =>
    }
  }

  // ----- the file changing underneath -----

  /**
   * A change of the file never takes edits away. After the watcher's delay it has been read or reported,
   * as it may have been before, if and only if no save is running: during one the notice is dropped.
   */
  lemma FileChangesAreNoticed(schema: Schema, w: World)
    ensures var s, t := w.store, Apply(schema, w, Notice).store;
            && (IsDirty(s) ==> t.pending == s.pending && t.onDisk == s.onDisk)
            && (IsUpToDate(t, w.file) <==> s.saveJob == 0 || IsUpToDate(s, w.file))
  {
    hide ParseValues, OnDisk, ValueSignals;
  }

  /** The file is as it was read, or the user is told that it is not. */
  predicate IsUpToDate(s: Store, file: File) {
    s.changedOnDisk || s.loaded == Doc.TextOf(file)
  }

  /** Whether the dropped notice is made good when the save ends: only if it succeeds. */
  lemma NoticeDuringSave(schema: Schema, w: World, ok: bool)
    requires w.store.saveJob > 0
    ensures var t := Apply(schema, Apply(schema, w, Notice), CliEnds(w.store.saveJob, ok)).store;
            && t.saveJob == 0
            && (IsUpToDate(t, w.file) <==> ok || IsUpToDate(w.store, w.file))
  {
    hide ParseValues, OnDisk, ValueSignals;
  }

  // ----- saving -----

  /** A failed save leaves every value, every edit and (when this user writes it) the file as they were. */
  lemma FailedSaveChangesNothing(schema: Schema, w: World, e: Event)
    requires Enabled(w, e) && (e.Save? || e.CliEnds?)
    requires var t := Apply(schema, w, e).store;
             t.signals != w.store.signals && t.signals[|t.signals| - 1] == SaveFinished(false)
    ensures var t := Apply(schema, w, e);
            && t.file == w.file && t.store.pending == w.store.pending && t.store.onDisk == w.store.onDisk
            && forall k :: Shown(t.store, k) == Shown(w.store, k)
  {
    hide Loaded, Patch.Valid, Patch.Sized, Lines, T.PatchText;
  }

  /**
   * When the command line tool has saved, the file is read again and every edit is gone, also those
   * made while it was running: what is shown is what the file says.
   */
  lemma CliSaveDropsLaterEdits(schema: Schema, w: World, section: string, key: string, v: Value, i: nat)
    requires schema.Valid() && w.store.saveJob != 0 && i < |schema.settings|
    ensures var edited := Apply(schema, w, Set(section, key, v));
            var t := Apply(schema, edited, CliEnds(w.store.saveJob, true)).store;
            var o := schema.settings[i];
            && !IsDirty(t)
            && Shown(t, KeyOf(o))
                 == Canonical(schema.floats, o.kind, Lookup(ParseValues(Doc.TextOf(w.file)), KeyOf(o), o.default))
  {
    hide Canonical, ParseValues, Loaded, Edited, FindFrom, Lookup, Shown, Schema.Valid;
    var edited := AfterSet(schema, w.store, section, key, v);
    EditKeepsJob(schema, w.store, section, key, v);
    var ended := Emit(edited.(saveJob := 0), [SavingChanged]);
    LoadShows(schema, ended, w.file, i);
    ShownIgnoresSignals(Loaded(schema, ended, w.file), [SaveFinished(true)], KeyOf(schema.settings[i]));
  }

  lemma EditKeepsJob(schema: Schema, s: Store, section: string, key: string, v: Value)
    ensures AfterSet(schema, s, section, key, v).saveJob == s.saveJob
  {
  }

  lemma ShownIgnoresSignals(s: Store, more: seq<Signal>, k: string)
    ensures Shown(Emit(s, more), k) == Shown(s, k)
  {
  }

  /** After loading, a setting shows the canonical form of what the file says, or else of its default. */
  lemma LoadShows(schema: Schema, s: Store, file: File, i: nat)
    requires schema.Valid() && i < |schema.settings|
    ensures var t, o := Loaded(schema, s, file), schema.settings[i];
            && !IsDirty(t)
            && Shown(t, KeyOf(o))
                 == Canonical(schema.floats, o.kind, Lookup(ParseValues(Doc.TextOf(file)), KeyOf(o), o.default))
  {
    hide Canonical, ParseValues, ValueSignals, OnDisk, KeyOf, Schema.Valid;
    LoadedValue(schema, ParseValues(Doc.TextOf(file)), |schema.settings|, i);
  }

  lemma {:induction false} FirstSlashAfter(section: string, rest: string)
    requires '/' !in section
    ensures FirstSlash(section + "/" + rest) == |section|
  {
    var s := section + "/" + rest;
    if section == "" {
    } else {
      assert s[0] == section[0] && section[0] in section;
      assert s[1..] == section[1..] + "/" + rest;
      FirstSlashAfter(section[1..], rest);
    }
  }

  lemma SettingFits(o: Setting, doc: seq<Entry>)
    requires HasPlainName(o)
    ensures KeyFits(doc, KeyOf(o))
  {
    hide IsHeaderName, IsKeyName, FirstSlash, EndOf, ValuesOf;
    var k := KeyOf(o);
    FirstSlashAfter(o.section, o.key);
    assert k[..|o.section|] == o.section && k[|o.section| + 1..] == o.key;
  }

  /** The editor can write every setting of the schema into any file. */
  lemma EditsFit(schema: Schema, s: Store, doc: seq<Entry>)
    requires schema.Valid() && Inv(schema, s)
    ensures KeysFit(doc, s.pending)
  {
    hide Canonical, InForm, KeyOf, KeyFits, HasPlainName;
    forall k | k in s.pending ensures KeyFits(doc, k) {
      assert schema.Knows(k);
      var i :| 0 <= i < |schema.settings| && KeyOf(schema.settings[i]) == k;
      SettingFits(schema.settings[i], doc);
    }
  }

  /**
   * A direct save writes exactly the edits over what the file said if and only if every edit is trimmed
   * and on one line, and an option assigned by several lines is not changed.
   */
  lemma DirectSaveExact(schema: Schema, w: World, run: Patch, order: seq<string>)
    requires schema.Valid() && Inv(schema, w.store) && Enabled(w, Save(Direct(true), run, order))
    requires ReplacesFile(w.store, w.file, Direct(true))
    ensures var after := Apply(schema, w, Save(Direct(true), run, order)).file;
            var wanted := ParseValues(Doc.TextOf(w.file)) + w.store.pending;
            ParseValues(Doc.TextOf(after)) == wanted <==> T.Honoured(Doc.TextOf(w.file), w.store.pending)
  {
    hide Inv, Loaded, ParseValues, Patch.Valid, Patch.Sized, Lines, T.PatchText, T.Honoured, KeysFit, Schema.Valid;
    EditsFit(schema, w.store, run.doc);
    T.PatchExact(Doc.TextOf(w.file), run);
  }

  /**
   * A successful direct save keeps what the user sees: if every edit is trimmed and on one line, each edit
   * whose option is not assigned by several lines is in the file and is shown unchanged afterwards.
   */
  lemma SavedEditIsShown(schema: Schema, w: World, run: Patch, order: seq<string>, i: nat)
    requires schema.Valid() && Inv(schema, w.store) && Enabled(w, Save(Direct(true), run, order))
    requires ReplacesFile(w.store, w.file, Direct(true)) && ValuesClean(w.store.pending)
    requires i < |schema.settings| && KeyOf(schema.settings[i]) in w.store.pending
    requires KeyOf(schema.settings[i]) !in Repeated(run.doc)
    ensures var after, k := Apply(schema, w, Save(Direct(true), run, order)), KeyOf(schema.settings[i]);
            && Lookup(ParseValues(Doc.TextOf(after.file)), k, "") == w.store.pending[k]
            && Shown(after.store, k) == Shown(w.store, k) == w.store.pending[k]
            && !IsDirty(after.store)
  {
    hide Canonical, ParseValues, ValueSignals, OnDisk, Patch.Valid, Patch.Sized, Lines, Repeated, KeysFit,
         ValuesClean, T.PatchText;
    var o := schema.settings[i];
    var text := Doc.TextOf(w.file);
    assert InForm(schema, w.store, o);
    EditsFit(schema, w.store, run.doc);
    T.PatchTheorem(text, run);
    var values := ParseValues(T.PatchText(text, run));
    assert values == ParseValues(text) + (run.changes - Repeated(run.doc));
    assert Lookup(values, KeyOf(o), o.default) == w.store.pending[KeyOf(o)];
    LoadedValue(schema, values, |schema.settings|, i);
  }

  // ----- saving through the command line tool -----

  lemma SchemaNamesPlainly(schema: Schema, s: Store)
    requires schema.Valid() && Inv(schema, s)
    ensures S.PlainlyNamed(s.pending)
  {
    hide Canonical, InForm, KeyOf, HasPlainName, SlotOf, MapKey;
    forall k | k in s.pending
      ensures MapKey(SlotOf(k).section, SlotOf(k).key) == k && '/' !in SlotOf(k).key
    {
      assert schema.Knows(k);
      var i :| 0 <= i < |schema.settings| && KeyOf(schema.settings[i]) == k;
      SettingSlot(schema.settings[i]);
    }
  }

  lemma SettingSlot(o: Setting)
    requires HasPlainName(o)
    ensures SlotOf(KeyOf(o)) == Slot(o.section, o.key) && '/' !in o.key && MapKey(o.section, o.key) == KeyOf(o)
  {
    hide SlotOf;
    SlotOfSetting(o);
    forall c | c in o.key ensures c != '/' {
      assert KeyChar.Has(c);
    }
  }

  /** The edits are handed to the tool, which runs and reports success. */
  ghost function CliSaved(schema: Schema, w: World, job: nat, run: Patch, order: seq<string>): World
    requires StartsJob(w.store, ThroughCli(job)) && job > 0 && Enumerates(order, w.store.pending.Keys)
  {
    var started := Apply(schema, w, Save(ThroughCli(job), run, order));
    Apply(schema, Apply(schema, started, CliRuns), CliEnds(job, true))
  }

  lemma CliSavedFile(schema: Schema, w: World, job: nat, run: Patch, order: seq<string>)
    requires StartsJob(w.store, ThroughCli(job)) && job > 0 && Enumerates(order, w.store.pending.Keys)
    requires w.file.Contents? && Refusal(w.file.text, S.Arguments(order, w.store.pending)).None?
    ensures CliSaved(schema, w, job, run, order).file == Doc.Contents(S.Written(w.file.text, order, w.store.pending))
    ensures CliSaved(schema, w, job, run, order).store
         == SaveEnded(schema, Emit(w.store.(saveJob := job), [SavingChanged]),
                      Doc.Contents(S.Written(w.file.text, order, w.store.pending)), true)
  {
    hide Loaded, Refusal, S.Arguments, SetLines, Concat, Names, Updates, ReadLines, SaveEnded, SlotOf;
    assert |S.Arguments(order, w.store.pending)| / 2 == |order|;
  }

  /**
   * A save through the tool writes exactly the edits over the file's values if and only if its exact
   * condition holds.
   */
  lemma CliSaveExact(schema: Schema, w: World, job: nat, run: Patch, order: seq<string>)
    requires schema.Valid() && Inv(schema, w.store)
    requires StartsJob(w.store, ThroughCli(job)) && job > 0 && Enumerates(order, w.store.pending.Keys)
    requires w.file.Contents? && Refusal(w.file.text, S.Arguments(order, w.store.pending)).None?
    ensures var after, wanted := CliSaved(schema, w, job, run, order), ParseValues(w.file.text) + w.store.pending;
            ParseValues(Doc.TextOf(after.file)) == wanted <==> S.SetHonours(w.file.text, order, w.store.pending)
  {
    hide Inv, ParseValues, CliSaved, Refusal, S.Arguments, S.Written, S.SetHonours, S.PlainlyNamed, Schema.Valid;
    SchemaNamesPlainly(schema, w.store);
    CliSavedFile(schema, w, job, run, order);
    S.SetExact(w.file.text, order, w.store.pending);
  }

  /** A request the tool refuses leaves the file, and with the failure the edits stay to be saved again. */
  lemma RefusedSaveKeepsAll(schema: Schema, w: World)
    requires w.store.saveJob > 0
    requires !w.file.Contents? || Refusal(w.file.text, w.asked).Some?
    ensures var t := Apply(schema, Apply(schema, w, CliRuns), CliEnds(w.store.saveJob, false));
            && t.file == w.file && t.store.pending == w.store.pending && t.store.onDisk == w.store.onDisk
            && t.store.saveJob == 0
  {
    hide Refusal, Loaded;
  }

  /**
   * A save through the tool that does what was asked keeps what the user sees: every edit is in the file and
   * shown unchanged.
   */
  lemma CliSavedEditIsShown(schema: Schema, w: World, job: nat, run: Patch, order: seq<string>, i: nat)
    requires schema.Valid() && Inv(schema, w.store)
    requires StartsJob(w.store, ThroughCli(job)) && job > 0 && Enumerates(order, w.store.pending.Keys)
    requires w.file.Contents? && Refusal(w.file.text, S.Arguments(order, w.store.pending)).None?
    requires S.SetHonours(w.file.text, order, w.store.pending)
    requires i < |schema.settings| && KeyOf(schema.settings[i]) in w.store.pending
    ensures var after, k := CliSaved(schema, w, job, run, order), KeyOf(schema.settings[i]);
            && Lookup(ParseValues(Doc.TextOf(after.file)), k, "") == w.store.pending[k]
            && Shown(after.store, k) == Shown(w.store, k) == w.store.pending[k]
            && !IsDirty(after.store)
  {
    hide Inv, ParseValues, CliSaved, Refusal, S.Arguments, S.Written, S.SetHonours, Schema.Valid, Loaded, Canonical,
         KeyOf;
    CliSaveExact(schema, w, job, run, order);
    CliSavedFile(schema, w, job, run, order);
    var o, file := schema.settings[i], CliSaved(schema, w, job, run, order).file;
    var ended := Emit(Emit(w.store.(saveJob := job), [SavingChanged]).(saveJob := 0), [SavingChanged]);
    LoadShows(schema, ended, file, i);
    ShownIgnoresSignals(Loaded(schema, ended, file), [SaveFinished(true)], KeyOf(o));
    PendingIsCanonical(schema, w.store, i);
  }

  lemma PendingIsCanonical(schema: Schema, s: Store, i: nat)
    requires Inv(schema, s) && i < |schema.settings| && KeyOf(schema.settings[i]) in s.pending
    ensures IsCanonical(schema, schema.settings[i], s.pending[KeyOf(schema.settings[i])])
  {
    hide Canonical, KeyOf;
    assert InForm(schema, s, schema.settings[i]);
  }

  /** With edits both writers understand, in particular. */
  lemma SaveableEditIsShown(schema: Schema, w: World, job: nat, run: Patch, order: seq<string>, i: nat)
    requires schema.Valid() && Inv(schema, w.store) && w.file.Contents? && S.Saveable(w.file.text, w.store.pending)
    requires StartsJob(w.store, ThroughCli(job)) && job > 0 && Enumerates(order, w.store.pending.Keys)
    requires i < |schema.settings| && KeyOf(schema.settings[i]) in w.store.pending
    ensures var after, k := CliSaved(schema, w, job, run, order), KeyOf(schema.settings[i]);
            Shown(after.store, k) == Shown(w.store, k) == w.store.pending[k]
  {
    hide Inv, ParseValues, CliSaved, Refusal, S.Arguments, S.SetHonours, S.Saveable, Schema.Valid, KeyOf;
    S.SaveableIsHonoured(w.file.text, w.store.pending, order);
    CliSavedEditIsShown(schema, w, job, run, order, i);
  }

  /** Edits are handed to the tool, and the tool will accept them. */
  ghost predicate SavesThroughCli(w: World, job: nat, order: seq<string>) {
    && StartsJob(w.store, ThroughCli(job)) && job > 0 && Enumerates(order, w.store.pending.Keys)
    && w.file.Contents? && Refusal(w.file.text, S.Arguments(order, w.store.pending)).None?
  }

  lemma SettingsNameKeys(schema: Schema, s: Store, order: seq<string>)
    requires schema.Valid() && Inv(schema, s) && Enumerates(order, s.pending.Keys)
    ensures S.NamesKeys(order, s.pending)
  {
    hide Canonical, InForm, KeyOf, HasPlainName, SlotOf, Names, Updates;
    S.RequestAsks(order, s.pending);
    forall k | k in s.pending ensures IsKeyName(SlotOf(k).key) {
      assert schema.Knows(k);
      var i :| 0 <= i < |schema.settings| && KeyOf(schema.settings[i]) == k;
      SettingKey(schema.settings[i]);
    }
  }

  lemma SettingKey(o: Setting)
    requires HasPlainName(o)
    ensures SlotOf(KeyOf(o)) == Slot(o.section, o.key) && IsKeyName(o.key)
  {
    hide SlotOf;
    SlotOfSetting(o);
  }

  /** What a setting shows once the tool has saved, said of the file and the edits it started from. */
  function ShownOnceSaved(schema: Schema, w: World, order: seq<string>, o: Setting): string
    requires forall k :: k in order ==> k in w.store.pending
  {
    var left := if w.file.Contents? then S.Remains(w.file.text, order, w.store.pending, o.section, o.key) else None;
    Canonical(schema.floats, o.kind, if left.Some? then left.value else o.default)
  }

  lemma ToolWrites(text: string, order: seq<string>, changes: map<string, string>)
    requires (forall k :: k in order ==> k in changes) && Refusal(text, S.Arguments(order, changes)).None?
    ensures AfterCli(Doc.Contents(text), S.Arguments(order, changes)) == Doc.Contents(S.Written(text, order, changes))
  {
    hide Refusal, Names, Updates, SetLines, Concat, ReadLines, SlotOf;
    assert |S.Arguments(order, changes)| / 2 == |order|;
    hide S.Arguments;
  }

  lemma EndShows(schema: Schema, s: Store, file: File, i: nat)
    requires schema.Valid() && i < |schema.settings|
    ensures var t, o := SaveEnded(schema, s, file, true), schema.settings[i];
            && !IsDirty(t)
            && Shown(t, KeyOf(o))
                 == Canonical(schema.floats, o.kind, Lookup(ParseValues(Doc.TextOf(file)), KeyOf(o), o.default))
  {
    hide ParseValues, Schema.Valid, Loaded, Canonical, Shown, Lookup, KeyOf;
    var ended := Emit(s.(saveJob := 0), [SavingChanged]);
    LoadShows(schema, ended, file, i);
    ShownIgnoresSignals(Loaded(schema, ended, file), [SaveFinished(true)], KeyOf(schema.settings[i]));
  }

  lemma SavedValue(schema: Schema, w: World, job: nat, order: seq<string>, i: nat)
    requires schema.Valid() && Inv(schema, w.store) && SavesThroughCli(w, job, order) && i < |schema.settings|
    ensures var o := schema.settings[i];
            var values := ParseValues(S.Written(w.file.text, order, w.store.pending));
            Canonical(schema.floats, o.kind, Lookup(values, KeyOf(o), o.default)) == ShownOnceSaved(schema, w, order, o)
  {
    hide Inv, ParseValues, Refusal, S.Arguments, Schema.Valid, Canonical, S.Written, S.NamesKeys, S.Remains, IsKeyName,
         SlotOf;
    var o := schema.settings[i];
    SettingsNameKeys(schema, w.store, order);
    assert IsKeyName(o.key) by { NamedPlainly(schema, i); }
    S.WrittenValue(w.file.text, order, w.store.pending, o.section, o.key);
  }

  /** The tool does its work and reports success. */
  ghost function ToolSucceeds(schema: Schema, w: World): World
    requires w.store.saveJob > 0
  {
    Apply(schema, Apply(schema, w, CliRuns), CliEnds(w.store.saveJob, true))
  }

  /** The edits so far are handed to the tool. */
  ghost function Handed(schema: Schema, w: World, job: nat, run: Patch, order: seq<string>): (r: World)
    requires StartsJob(w.store, ThroughCli(job)) && job > 0 && Enumerates(order, w.store.pending.Keys)
    ensures r.store.saveJob == job
  {
    Apply(schema, w, Save(ThroughCli(job), run, order))
  }

  lemma HandedIs(schema: Schema, w: World, job: nat, run: Patch, order: seq<string>)
    requires StartsJob(w.store, ThroughCli(job)) && job > 0 && Enumerates(order, w.store.pending.Keys)
    ensures Handed(schema, w, job, run, order)
         == World(Emit(w.store.(saveJob := job), [SavingChanged]), w.file, S.Arguments(order, w.store.pending))
  {
    hide S.Arguments;
  }

  /** An edit is made while the tool works. */
  ghost function EditedMeanwhile(schema: Schema, w: World, o: Setting, v: Value): (r: World)
    ensures r.store.saveJob == w.store.saveJob && r.file == w.file && r.asked == w.asked
  {
    hide Edited, FindFrom;
    EditKeepsJob(schema, w.store, o.section, o.key, v);
    Apply(schema, w, Set(o.section, o.key, v))
  }

  /** Whatever is edited while the tool works, this is shown when it has succeeded. */
  lemma SavedIsShown(schema: Schema, w: World, job: nat, order: seq<string>, later: World, i: nat)
    requires schema.Valid() && Inv(schema, w.store) && SavesThroughCli(w, job, order) && i < |schema.settings|
    requires later.file == w.file && later.asked == S.Arguments(order, w.store.pending) && later.store.saveJob == job
    ensures var after := ToolSucceeds(schema, later);
            && !IsDirty(after.store)
            && Shown(after.store, KeyOf(schema.settings[i])) == ShownOnceSaved(schema, w, order, schema.settings[i])
  {
    hide Inv, ParseValues, Refusal, S.Arguments, Schema.Valid, SaveEnded, Canonical, S.Written, Shown, ShownOnceSaved,
         Lookup, KeyOf, AfterCli;
    ToolWrites(w.file.text, order, w.store.pending);
    SavedValue(schema, w, job, order, i);
    EndShows(schema, later.store, Doc.Contents(S.Written(w.file.text, order, w.store.pending)), i);
  }

  lemma NamedPlainly(schema: Schema, i: nat)
    requires schema.Valid() && i < |schema.settings|
    ensures HasPlainName(schema.settings[i])
  {
    hide KeyOf, HasPlainName;
  }

  /** If the save does what was asked and the file is the one read, that is what was shown when it started. */
  lemma HonouredSaveShowsTheStart(schema: Schema, w: World, job: nat, order: seq<string>, i: nat)
    requires schema.Valid() && Inv(schema, w.store) && OnDiskIsLoaded(schema, w.store)
    requires SavesThroughCli(w, job, order) && i < |schema.settings|
    requires S.SetHonours(w.file.text, order, w.store.pending) && w.store.loaded == w.file.text
    ensures ShownOnceSaved(schema, w, order, schema.settings[i]) == Shown(w.store, KeyOf(schema.settings[i]))
  {
    hide Inv, ParseValues, Refusal, S.Arguments, S.NamesKeys, S.LinesFit, Schema.Valid, Canonical, S.Remains, S.Written,
         IsKeyName, S.PlainlyNamed, OnDisk;
    var o := schema.settings[i];
    SchemaNamesPlainly(schema, w.store);
    S.SetExact(w.file.text, order, w.store.pending);
    assert IsKeyName(o.key) by { NamedPlainly(schema, i); }
    S.WrittenValue(w.file.text, order, w.store.pending, o.section, o.key);
    LoadedValue(schema, ParseValues(w.file.text), |schema.settings|, i);
    if KeyOf(o) in w.store.pending {
      PendingIsCanonical(schema, w.store, i);
    }
  }

  /**
   * An edit made while the tool is saving is still shown when it has succeeded if and only if its text is
   * what the save makes of the file and edits it started from; when the save does what was asked of the file
   * last read, this is the text that was shown when it started.
   */
  lemma LaterEditSurvivesExactly(schema: Schema, w: World, job: nat, run: Patch, order: seq<string>, v: Value, i: nat)
    requires schema.Valid() && Inv(schema, w.store) && OnDiskIsLoaded(schema, w.store)
    requires SavesThroughCli(w, job, order) && i < |schema.settings|
    ensures var o := schema.settings[i];
            var edited := EditedMeanwhile(schema, Handed(schema, w, job, run, order), o, v);
            var text, after := Serialize(schema.floats, o.kind, v), ToolSucceeds(schema, edited);
            && Shown(edited.store, KeyOf(o)) == text
            && (Shown(after.store, KeyOf(o)) == text <==> text == ShownOnceSaved(schema, w, order, o))
            && (S.SetHonours(w.file.text, order, w.store.pending) && w.store.loaded == w.file.text ==>
                  (Shown(after.store, KeyOf(o)) == text <==> text == Shown(w.store, KeyOf(o))))
  {
    hide Inv, Refusal, S.Arguments, S.SetHonours, Schema.Valid, ShownOnceSaved, OnDiskIsLoaded, ToolSucceeds, Shown,
         Handed, Serialize, KeyOf, Edited, FindFrom;
    var o, started := schema.settings[i], Handed(schema, w, job, run, order);
    HandedIs(schema, w, job, run, order);
    SameValuesKeepInv(schema, w.store, started.store);
    EditIsShown(schema, started, o, v);
    SavedIsShown(schema, w, job, order, EditedMeanwhile(schema, started, o, v), i);
    if S.SetHonours(w.file.text, order, w.store.pending) && w.store.loaded == w.file.text {
      HonouredSaveShowsTheStart(schema, w, job, order, i);
    }
  }

  // ----- a session that loses an edit -----

  ghost predicate Follows(schema: Schema, w: World, e: Event, next: World) {
    Enabled(w, e) && next == Apply(schema, w, e)
  }

  lemma FiveEvents(schema: Schema, w: seq<World>, e: seq<Event>)
    requires schema.Valid() && |w| == 6 && |e| == 5 && w[0] == Opened(schema, w[0].file)
    requires Follows(schema, w[0], e[0], w[1]) && Follows(schema, w[1], e[1], w[2]) && Follows(schema, w[2], e[2], w[3])
    requires Follows(schema, w[3], e[3], w[4]) && Follows(schema, w[4], e[4], w[5])
    ensures IsRun(schema, w, e)
  {
    hide Enabled, Apply, Schema.Valid, Loaded;
    forall n | 0 <= n < 5 ensures Enabled(w[n], e[n]) && w[n + 1] == Apply(schema, w[n], e[n]) {
      assert n == 0 || n == 1 || n == 2 || n == 3 || n == 4;
    }
  }

  /** What one edit of a text setting leaves, when nothing else is pending. */
  lemma TextEdit(schema: Schema, s: Store, o: Setting, x: string)
    requires schema.settings == [o] && o.kind.TextKind? && (forall k :: k in s.pending ==> k == KeyOf(o))
    requires x != Shown(s, KeyOf(o)) && x != Lookup(s.onDisk, KeyOf(o), "")
    ensures var t := AfterSet(schema, s, o.section, o.key, TextValue(x));
            && t.pending == map[KeyOf(o) := x] && t.onDisk == s.onDisk && t.saveJob == s.saveJob
            && t.loaded == s.loaded && t.changedOnDisk == s.changedOnDisk && Shown(t, KeyOf(o)) == x
  {
    hide KeyOf;
  }

  /** The first two steps of both sessions: the edit is made and handed to the tool. */
  lemma EditAndHandOver(schema: Schema, w: World, o: Setting, x: string) returns (edited: World, started: World)
    requires schema.settings == [o] && o.kind.TextKind? && w.store.pending == map[] && w.store.saveJob == 0
    requires x != Lookup(w.store.onDisk, KeyOf(o), "")
    ensures Follows(schema, w, Set(o.section, o.key, TextValue(x)), edited)
    ensures Follows(schema, edited, Save(ThroughCli(1), NO_RUN, [KeyOf(o)]), started)
    ensures started.file == w.file && started.asked == S.Arguments([KeyOf(o)], map[KeyOf(o) := x])
    ensures var s, t := w.store, started.store;
            && t.pending == map[KeyOf(o) := x] && t.saveJob == 1
            && t.onDisk == s.onDisk && t.loaded == s.loaded && t.changedOnDisk == s.changedOnDisk
  {
    hide KeyOf, S.Arguments, AfterSet, Lookup;
    var k := KeyOf(o);
    assert Shown(w.store, k) == Lookup(w.store.onDisk, k, "");
    TextEdit(schema, w.store, o, x);
    edited := Apply(schema, w, Set(o.section, o.key, TextValue(x)));
    assert Enumerates([k], edited.store.pending.Keys);
    started := Apply(schema, edited, Save(ThroughCli(1), NO_RUN, [k]));
  }

  lemma OneArgument(o: Setting, x: string, text: string)
    requires HasPlainName(o)
    ensures var changes := map[KeyOf(o) := x];
            && S.Arguments([KeyOf(o)], changes) == [o.key, x]
            && Names([o.key, x], 1) == [o.key] && Updates([o.key, x], 1) == map[o.key := x]
            && Refusal(text, [o.key, x]) == RefusedFor(ReadLines(text), [o.key], map[o.key := x])
  {
    hide SlotOf, KeyOf, HasPlainName, ReadLines, RefusedFor;
    SlotOfSetting(o);
    assert [KeyOf(o)][..0] == [];
  }

  /** The file of the session: one option. */
  function OneOption(o: Setting, x: string): string {
    Unlines([HeaderLine(o.section), OptionStem(o.key) + x], true)
  }

  lemma CliOnOneOption(o: Setting, first: string, saved: string)
    requires HasPlainName(o) && IsClean(first) && IsClean(saved) && !HasLineBreak(saved)
    ensures ParseValues(OneOption(o, first)) == map[KeyOf(o) := first]
    ensures var after := AfterCli(Doc.Contents(OneOption(o, first)), S.Arguments([KeyOf(o)], map[KeyOf(o) := saved]));
            ParseValues(Doc.TextOf(after)) == map[KeyOf(o) := saved]
  {
    hide ParseValues, Refusal, RefusedFor, SetLines, Concat, Names, Updates, ReadLines, S.Arguments, HasLineBreak,
         IsClean, IsHeaderName, IsKeyName, Unlines;
    S.SetOnOneOption(o.section, o.key, first, saved);
    OneArgument(o, saved, OneOption(o, first));
  }

  /** Edit, save through the tool, edit again while it works, and let it succeed. */
  ghost function LosingEvents(o: Setting, saved: string, later: string): seq<Event> {
    [Set(o.section, o.key, TextValue(saved)), Save(ThroughCli(1), NO_RUN, [KeyOf(o)]),
     Set(o.section, o.key, TextValue(later)), CliRuns, CliEnds(1, true)]
  }

  /** The later edit is shown while the tool works and has given way to the saved one when it has succeeded. */
  lemma LaterEditIsLost(floats: Floats, o: Setting, first: string, saved: string, later: string)
    returns (schema: Schema, worlds: seq<World>)
    requires floats.Valid() && o.kind.TextKind? && HasPlainName(o)
    requires IsClean(first) && IsClean(saved) && !HasLineBreak(saved)
    requires first != saved && saved != later && first != later
    ensures IsRun(schema, worlds, LosingEvents(o, saved, later))
    ensures worlds[0].file == Doc.Contents(OneOption(o, first))
    ensures Shown(worlds[3].store, KeyOf(o)) == later && Shown(worlds[5].store, KeyOf(o)) == saved
  {
    hide ParseValues, KeyOf, HasPlainName, Loaded, AfterCli, S.Arguments, IsClean, HasLineBreak, Shown, OneOption,
         Lookup, Floats.Valid, IsRun, Enabled, Apply;
    schema := Schema([o], floats);
    var k, e, file := KeyOf(o), LosingEvents(o, saved, later), Doc.Contents(OneOption(o, first));
    CliOnOneOption(o, first, saved);
    var w0 := Opened(schema, file);
    LoadShowsText(schema, Store(map[], map[], 0, false, "", []), file, o, first);
    var w1, w2 := EditAndHandOver(schema, w0, o, saved);
    ShownOfPending(w2.store, k);
    var w3, w4, w5 := EditAndLose(schema, w2, o, saved, later);
    worlds := [w0, w1, w2, w3, w4, w5];
    FiveEvents(schema, worlds, e);
  }

  /** The last three steps. */
  lemma EditAndLose(schema: Schema, w: World, o: Setting, saved: string, later: string)
    returns (edited: World, ran: World, last: World)
    requires schema.Valid() && schema.settings == [o] && o.kind.TextKind? && w.store.saveJob == 1
    requires w.store.pending == map[KeyOf(o) := saved]
    requires later != saved && later != Lookup(w.store.onDisk, KeyOf(o), "")
    requires ParseValues(Doc.TextOf(AfterCli(w.file, w.asked))) == map[KeyOf(o) := saved]
    ensures Follows(schema, w, Set(o.section, o.key, TextValue(later)), edited) && Follows(schema, edited, CliRuns, ran)
    ensures Follows(schema, ran, CliEnds(1, true), last)
    ensures Shown(edited.store, KeyOf(o)) == later && Shown(last.store, KeyOf(o)) == saved
  {
    hide ParseValues, KeyOf, AfterCli, AfterSet, Shown, Lookup, Schema.Valid, Loaded;
    ShownOfPending(w.store, KeyOf(o));
    TextEdit(schema, w.store, o, later);
    edited := Apply(schema, w, Set(o.section, o.key, TextValue(later)));
    ran := Apply(schema, edited, CliRuns);
    last := Apply(schema, ran, CliEnds(1, true));
    var ended := Emit(edited.store.(saveJob := 0), [SavingChanged]);
    LoadShowsText(schema, ended, ran.file, o, saved);
    ShownIgnoresSignals(Loaded(schema, ended, ran.file), [SaveFinished(true)], KeyOf(o));
  }

  /** Edit, save through the tool, have the file replaced and the notice come while it works, and let it fail. */
  ghost function MissingEvents(o: Setting, saved: string, other: File): seq<Event> {
    [Set(o.section, o.key, TextValue(saved)), Save(ThroughCli(1), NO_RUN, [KeyOf(o)]), Elsewhere(other), Notice,
     CliEnds(1, false)]
  }

  /** The store ends idle, showing values of a text the file does not hold any more, and nobody is told. */
  lemma ChangeDuringFailedSaveIsMissed(floats: Floats, o: Setting, saved: string, file: File, other: File)
    returns (schema: Schema, worlds: seq<World>)
    requires floats.Valid() && o.kind.TextKind? && HasPlainName(o) && Doc.TextOf(other) != Doc.TextOf(file)
    requires saved != Shown(Opened(Schema([o], floats), file).store, KeyOf(o))
    ensures IsRun(schema, worlds, MissingEvents(o, saved, other))
    ensures worlds[0].file == file && worlds[5].file == other
    ensures worlds[5].store.saveJob == 0 && !IsUpToDate(worlds[5].store, other)
  {
    hide ParseValues, KeyOf, HasPlainName, S.Arguments, Floats.Valid, OnDisk, ValueSignals, IsRun, Enabled, Apply;
    schema := Schema([o], floats);
    var e, w0 := MissingEvents(o, saved, other), Opened(schema, file);
    var w1, w2 := EditAndHandOver(schema, w0, o, saved);
    var w4 := w2.(file := other);
    var w5 := MissedNotice(schema, w2, other);
    worlds := [w0, w1, w2, w4, w4, w5];
    FiveEvents(schema, worlds, e);
  }

  /** The last three steps. */
  lemma MissedNotice(schema: Schema, w: World, other: File) returns (last: World)
    requires w.store.saveJob == 1 && !IsUpToDate(w.store, other)
    ensures Follows(schema, w, Elsewhere(other), w.(file := other))
    ensures Follows(schema, w.(file := other), Notice, w.(file := other))
    ensures Follows(schema, w.(file := other), CliEnds(1, false), last)
    ensures last.file == other && last.store.saveJob == 0 && !IsUpToDate(last.store, other)
  {
    last := Apply(schema, w.(file := other), CliEnds(1, false));
  }

  lemma ShownOfPending(s: Store, k: string)
    requires k in s.pending
    ensures Shown(s, k) == s.pending[k]
  {
  }

  lemma LoadShowsText(schema: Schema, s: Store, file: File, o: Setting, x: string)
    requires schema.Valid() && schema.settings == [o] && o.kind.TextKind?
    requires ParseValues(Doc.TextOf(file)) == map[KeyOf(o) := x]
    ensures var t := Loaded(schema, s, file);
            t.pending == map[] && Shown(t, KeyOf(o)) == x && Lookup(t.onDisk, KeyOf(o), "") == x
                && t.saveJob == s.saveJob
  {
    hide ParseValues, KeyOf, Schema.Valid, OnDisk, ValueSignals;
    LoadedValue(schema, ParseValues(Doc.TextOf(file)), 1, 0);
  }
}
