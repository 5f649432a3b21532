/**
 * The settings as the user interface sees them: what was last read from disk, the edits on top,
 * saving directly or through the command line tool, and the notifications for each change.
 */
module ConfigStore {
  import opened ConfigValues
  import opened Text
  import opened IniLine
  import opened IniSpec
  import opened Options
  import Doc = IniDocument
  import T = IniTheorem
  import S = SavePaths

  type File = Doc.File

  datatype Signal =
    | ValueChanged(section: string, key: string)
    | DirtyChanged
    | WritableChanged
    | SavingChanged
    | ProblemsChanged
    | ChangedOnDiskChanged
    | LoadFailed
    | SaveFinished(ok: bool)

  function KeyOf(o: Setting): string {
    MapKey(o.section, o.key)
  }

  /** The name can be written as a section and a key, and cut apart again. */
  predicate HasPlainName(o: Setting) {
    '/' !in o.section && IsHeaderName(o.section) && IsKeyName(o.key)
  }

  /** The settings the program knows, each under its own name. */
  datatype Schema = Schema(settings: seq<Setting>, floats: Floats) {
    ghost predicate Valid() {
      && floats.Valid()
      && (forall i, j :: 0 <= i < j < |settings| ==> KeyOf(settings[i]) != KeyOf(settings[j]))
      && (forall i :: 0 <= i < |settings| ==> HasPlainName(settings[i]))
    }

    ghost predicate Knows(k: string) {
      exists i :: 0 <= i < |settings| && KeyOf(settings[i]) == k
    }
  }

  /** `saveJob` is 0 unless the command line tool is saving; `loaded` is the text last read. */
  datatype Store = Store(pending: map<string, string>, onDisk: map<string, string>, saveJob: nat,
                         changedOnDisk: bool, loaded: string, signals: seq<Signal>)

  predicate IsDirty(s: Store) {
    s.pending != map[]
  }

  function Lookup(values: map<string, string>, k: string, otherwise: string): string {
    if k in values then values[k] else otherwise
  }

  /** The value the user sees. */
  function Shown(s: Store, k: string): string {
    if k in s.pending then s.pending[k] else Lookup(s.onDisk, k, "")
  }

  // ----- the specification of each operation -----

  function Emit(s: Store, signals: seq<Signal>): Store {
    s.(signals := s.signals + signals)
  }

  function ChangedOnDiskIs(s: Store, changed: bool): Store {
    if s.changedOnDisk == changed then s else Emit(s.(changedOnDisk := changed), [ChangedOnDiskChanged])
  }

  /** The canonical value of each of the first n settings. */
  function OnDisk(schema: Schema, values: map<string, string>, n: nat): map<string, string>
    requires n <= |schema.settings|
  {
    if n == 0 then map[]
    else
      var o := schema.settings[n - 1];
      OnDisk(schema, values, n - 1)[KeyOf(o) := Canonical(schema.floats, o.kind, Lookup(values, KeyOf(o), o.default))]
  }

  function ValueSignals(settings: seq<Setting>, n: nat): seq<Signal>
    requires n <= |settings|
  {
    if n == 0 then [] else ValueSignals(settings, n - 1) + [ValueChanged(settings[n - 1].section, settings[n - 1].key)]
  }

  function Loaded(schema: Schema, s: Store, file: File): Store {
    var n, text := |schema.settings|, Doc.TextOf(file);
    var read := ChangedOnDiskIs(if file.Unreadable? then Emit(s, [LoadFailed]) else s, false);
    var told := Emit(Emit(read.(pending := map[], onDisk := OnDisk(schema, ParseValues(text), n), loaded := text),
                          ValueSignals(schema.settings, n)), [ProblemsChanged]);
    Emit(if IsDirty(s) then Emit(told, [DirtyChanged]) else told, [WritableChanged])
  }

  /** The first setting with this section and key. */
  function FindFrom(settings: seq<Setting>, section: string, key: string, i: nat): (r: Option<Setting>)
    requires i <= |settings|
    ensures r.Some? ==> r.value in settings && r.value.section == section && r.value.key == key
    ensures r.None? ==> forall j :: i <= j < |settings| ==> settings[j].section != section || settings[j].key != key
    decreases |settings| - i
  {
    if i == |settings| then None
    else if settings[i].section == section && settings[i].key == key then Some(settings[i])
    else FindFrom(settings, section, key, i + 1)
  }

  function Edited(schema: Schema, s: Store, o: Setting, v: Value): Store {
    var k, text := KeyOf(o), Serialize(schema.floats, o.kind, v);
    if text == Shown(s, k) then s
    else
      var t := s.(pending := if text == Lookup(s.onDisk, k, "") then s.pending - {k} else s.pending[k := text]);
      Emit(t, [ValueChanged(o.section, o.key)] + if IsDirty(s) != IsDirty(t) then [DirtyChanged] else [])
  }

  function AfterSet(schema: Schema, s: Store, section: string, key: string, v: Value): Store {
    match FindFrom(schema.settings, section, key, 0)
    case None => s
    case Some(o) => Edited(schema, s, o, v)
  }

  function DefaultOf(schema: Schema, o: Setting): Value {
    Deserialize(schema.floats, o.kind, Canonical(schema.floats, o.kind, o.default))
  }

  function AfterReset(schema: Schema, s: Store, section: string, key: string): Store {
    match FindFrom(schema.settings, section, key, 0)
    case None => s
    case Some(o) => Edited(schema, s, o, DefaultOf(schema, o))
  }

  function RevertSignals(order: seq<string>): seq<Signal> {
    if order == [] then []
    else
      var slot := SlotOf(order[|order| - 1]);
      RevertSignals(order[..|order| - 1]) + [ValueChanged(slot.section, slot.key)]
  }

  /** `order` is the order in which the discarded edits are visited. */
  function Reverted(s: Store, order: seq<string>): Store {
    if !IsDirty(s) then s else Emit(s.(pending := map[]), RevertSignals(order) + [DirtyChanged])
  }

  function FileNoticed(schema: Schema, s: Store, file: File): Store {
    if s.saveJob != 0 || Doc.TextOf(file) == s.loaded then s
    else if IsDirty(s) then ChangedOnDiskIs(s, true)
    else Loaded(schema, s, file)
  }

  /** `run` is the editor's run over the file as it is now; `committed` says whether the file could be replaced. */
  ghost function DirectlySaved(schema: Schema, s: Store, file: File, committed: bool, run: Patch): (Store, File)
    requires committed && !file.Unreadable? ==> run.Sized()
  {
    if file.Unreadable? || !committed then (Emit(s, [SaveFinished(false)]), file)
    else
      var after := Doc.Contents(T.PatchText(Doc.TextOf(file), run));
      (Emit(Loaded(schema, s, after), [SaveFinished(true)]), after)
  }

  function SaveEnded(schema: Schema, s: Store, file: File, ok: bool): Store {
    var t := Emit(s.(saveJob := 0), [SavingChanged]);
    Emit(if ok then Loaded(schema, t, file) else t, [SaveFinished(ok)])
  }

  /** Who can write the file: this user, or the command line tool with the job number it would get. */
  datatype Access = Direct(committed: bool) | ThroughCli(job: nat) | Nobody

  predicate ReplacesFile(s: Store, file: File, access: Access) {
    s.saveJob == 0 && IsDirty(s) && access == Direct(true) && !file.Unreadable?
  }

  /** The save is handed to the command line tool. */
  predicate StartsJob(s: Store, access: Access) {
    s.saveJob == 0 && IsDirty(s) && access.ThroughCli?
  }

  ghost function AfterSave(schema: Schema, s: Store, file: File, access: Access, run: Patch): (Store, File)
    requires ReplacesFile(s, file, access) ==> run.Sized()
  {
    if s.saveJob != 0 then (s, file)
    else if !IsDirty(s) then (Emit(s, [SaveFinished(true)]), file)
    else
      match access
      case Direct(committed) => DirectlySaved(schema, s, file, committed, run)
      case ThroughCli(job) => (Emit(s.(saveJob := job), [SavingChanged]), file)
      case Nobody => (Emit(s, [SaveFinished(false)]), file)
  }

  /** The run is one over this file for these edits. */
  ghost predicate IsRunFor(run: Patch, s: Store, file: File) {
    run.Valid() && run.Sized() && run.changes == s.pending && run.doc == Entries(Lines(Doc.TextOf(file)))
  }

  const NO_RUN := Patch([], map[], [], [], [], map[], map[], true)

  lemma NothingReverted()
    ensures RevertSignals([]) == []
  {
  }

  lemma OneMoreReverted(order: seq<string>, k: string)
    ensures RevertSignals(order + [k]) == RevertSignals(order) + [ValueChanged(SlotOf(k).section, SlotOf(k).key)]
  {
    hide SlotOf;
    assert (order + [k])[..|order|] == order;
  }

  // ----- the object -----

  class Disk {
    var file: File

    constructor (initial: File)
      ensures file == initial
    {
      file := initial;
    }
  }

  class ConfigStore {
    const schema: Schema
    const disk: Disk
    const document: Doc.IniDocument
    var pending: map<string, string>
    var onDisk: map<string, string>
    var saveJob: nat
    var changedOnDisk: bool
    var loaded: string
    var signals: seq<Signal>

    function State(): Store
      reads this
    {
      Store(pending, onDisk, saveJob, changedOnDisk, loaded, signals)
    }

    constructor (theSchema: Schema, theDisk: Disk)
      ensures schema == theSchema && disk == theDisk && fresh(document)
      ensures State() == Loaded(theSchema, Store(map[], map[], 0, false, "", []), theDisk.file)
    {
      schema, disk := theSchema, theDisk;
      pending, onDisk, saveJob, changedOnDisk, loaded, signals := map[], map[], 0, false, "", [];
      document := new Doc.IniDocument();
      new;
      Load();
    }

    method SetChangedOnDisk(changed: bool)
      modifies this
      ensures State() == ChangedOnDiskIs(old(State()), changed)
    {
      if changedOnDisk != changed {
        changedOnDisk := changed;
        signals := signals + [ChangedOnDiskChanged];
      }
    }

    method ReadSettings(values: map<string, string>)
      modifies this`onDisk, this`signals
      ensures onDisk == OnDisk(schema, values, |schema.settings|)
      ensures signals == old(signals) + ValueSignals(schema.settings, |schema.settings|)
    {
      hide Canonical;
      onDisk := map[];
      for i := 0 to |schema.settings|
        invariant onDisk == OnDisk(schema, values, i)
        invariant signals == old(signals) + ValueSignals(schema.settings, i)
      {
        var o := schema.settings[i];
        onDisk := onDisk[KeyOf(o) := Canonical(schema.floats, o.kind, Lookup(values, KeyOf(o), o.default))];
        signals := signals + [ValueChanged(o.section, o.key)];
      }
    }

    method Load()
      modifies this, document
      ensures State() == Loaded(schema, old(State()), disk.file)
    {
      hide ParseValues, OnDisk, ValueSignals, EndsWithNewline, Lines, Entries, Doc.IniDocument.Valid;
      var wasDirty := pending != map[];
      pending := map[];
      var ok := document.Load(disk.file);
      if !ok {
        signals := signals + [LoadFailed];
      }
      loaded := Doc.TextOf(disk.file);
      SetChangedOnDisk(false);
      ReadSettings(document.values);
      signals := signals + [ProblemsChanged];
      if wasDirty {
        signals := signals + [DirtyChanged];
      }
      signals := signals + [WritableChanged];
    }

    method Set(section: string, key: string, v: Value)
      modifies this
      ensures State() == AfterSet(schema, old(State()), section, key, v)
    {
      hide Serialize, FindFrom, KeyOf, Lookup, Shown;
      var found := FindFrom(schema.settings, section, key, 0);
      if found.None? {
        return;
      }
      var o := found.value;
      var k, serialized := KeyOf(o), Serialize(schema.floats, o.kind, v);
      if serialized == Shown(State(), k) {
        return;
      }
      var wasDirty := pending != map[];
      if serialized == Lookup(onDisk, k, "") {
        pending := pending - {k};
      } else {
        pending := pending[k := serialized];
      }
      signals := signals + [ValueChanged(section, key)];
      if wasDirty != (pending != map[]) {
        signals := signals + [DirtyChanged];
      }
    }

    method Reset(section: string, key: string)
      modifies this
      ensures State() == AfterReset(schema, old(State()), section, key)
    {
      hide Serialize, Deserialize, Canonical;
      var found := FindFrom(schema.settings, section, key, 0);
      if found.None? {
        return;
      }
      Set(section, key, DefaultOf(schema, found.value));
    }

    method EmitReverted(keys: set<string>) returns (ghost order: seq<string>)
      modifies this`signals
      ensures Enumerates(order, keys)
      ensures signals == old(signals) + RevertSignals(order)
    {
      hide SlotOf, Enumerates, RevertSignals;
      order := [];
      NothingReverted();
      var rest := keys;
      assert Enumerates(order, keys - rest) by { Doc.NothingEnumerated(keys - rest); }
      while rest != {}
        invariant rest <= keys && Enumerates(order, keys - rest)
        invariant signals == old(signals) + RevertSignals(order)
        decreases |rest|
      {
        var k :| k in rest;
        var slot := SlotOf(k);
        signals := signals + [ValueChanged(slot.section, slot.key)];
        OneMoreReverted(order, k);
        Doc.EnumeratesStep(order, keys - rest, k);
        ghost var visited := keys - rest;
        rest := rest - {k};
        order := order + [k];
        assert keys - rest == visited + {k};
      }
      assert keys - rest == keys;
    }

    method Revert() returns (ghost order: seq<string>)
      modifies this
      ensures Enumerates(order, old(pending).Keys)
      ensures State() == Reverted(old(State()), order)
    {
      hide RevertSignals;
      if pending == map[] {
        return [];
      }
      var reverted := pending;
      pending := map[];
      order := EmitReverted(reverted.Keys);
      signals := signals + [DirtyChanged];
    }

    method KeepEdits()
      modifies this
      ensures State() == ChangedOnDiskIs(old(State()), false)
    {
      SetChangedOnDisk(false);
    }

    /** The file or its directory changed some time ago. */
    method OnFileChanged()
      modifies this, document
      ensures State() == FileNoticed(schema, old(State()), disk.file)
    {
      if saveJob != 0 || Doc.TextOf(disk.file) == loaded {
        return;
      }
      if pending != map[] {
        SetChangedOnDisk(true);
      } else {
        Load();
      }
    }

    /** Patches what is on disk now, so changes made underneath since the last load are kept. */
    method WriteDirectly(committed: bool) returns (ghost run: Patch)
      modifies this, document, disk
      ensures committed && !old(disk.file).Unreadable? ==> IsRunFor(run, old(State()), old(disk.file))
      ensures (State(), disk.file) == DirectlySaved(schema, old(State()), old(disk.file), committed, run)
    {
      hide Doc.IniDocument.Valid, Patch.Valid, Patch.Sized, Loaded, Lines, ParseValues, EndsWithNewline;
      run := NO_RUN;
      var ok := document.Load(disk.file);
      if !ok {
        signals := signals + [SaveFinished(false)];
        return;
      }
      var contents;
      contents, run := document.Patched(pending);
      if !committed {
        signals := signals + [SaveFinished(false)];
        return;
      }
      disk.file := Doc.Contents(contents);
      Load();
      signals := signals + [SaveFinished(true)];
    }

    /** The names and values handed to `secureEye set`. */
    method WriteThroughCli(job: nat) returns (arguments: seq<string>, ghost order: seq<string>)
      modifies this
      ensures Enumerates(order, pending.Keys) && (forall k :: k in order ==> k in pending)
      ensures arguments == S.Arguments(order, pending)
      ensures State() == Emit(old(State()).(saveJob := job), [SavingChanged])
    {
      hide SlotOf, Enumerates;
      arguments, order := [], [];
      var rest := pending.Keys;
      assert Enumerates(order, pending.Keys - rest) by { Doc.NothingEnumerated(pending.Keys - rest); }
      while rest != {}
        invariant rest <= pending.Keys && Enumerates(order, pending.Keys - rest)
        invariant forall k :: k in order ==> k in pending
        invariant arguments == S.Arguments(order, pending)
        invariant unchanged(this)
        decreases |rest|
      {
        var k :| k in rest;
        arguments := arguments + [SlotOf(k).key, pending[k]];
        assert (order + [k])[..|order|] == order;
        Doc.EnumeratesStep(order, pending.Keys - rest, k);
        ghost var visited := pending.Keys - rest;
        rest := rest - {k};
        order := order + [k];
        assert pending.Keys - rest == visited + {k};
      }
      assert pending.Keys - rest == pending.Keys;
      saveJob := job;
      signals := signals + [SavingChanged];
    }

    /** When the command line tool is started it is handed the edits as they are now. */
    method Save(access: Access) returns (ghost run: Patch, arguments: seq<string>, ghost order: seq<string>)
      modifies this, document, disk
      ensures StartsJob(old(State()), access) ==>
                && Enumerates(order, old(pending).Keys) && (forall k :: k in order ==> k in old(pending))
                && arguments == S.Arguments(order, old(pending))
      ensures ReplacesFile(old(State()), old(disk.file), access) ==> IsRunFor(run, old(State()), old(disk.file))
      ensures (State(), disk.file) == AfterSave(schema, old(State()), old(disk.file), access, run)
    {
      hide Loaded, Patch.Valid, Patch.Sized, Lines, T.PatchText, Enumerates;
      run, arguments, order := NO_RUN, [], [];
      if saveJob != 0 {
        return;
      }
      if pending == map[] {
        signals := signals + [SaveFinished(true)];
        return;
      }
      match access {
        case Direct(committed) =>
          run := WriteDirectly(committed);
        case ThroughCli(job) =>
          arguments, order := WriteThroughCli(job);
        case Nobody =>
          signals := signals + [SaveFinished(false)];
      }
    }

    method FinishSave(ok: bool)
      modifies this, document
      ensures State() == SaveEnded(schema, old(State()), disk.file, ok)
    {
      hide Loaded;
      saveJob := 0;
      signals := signals + [SavingChanged];
      if ok {
        Load();
      }
      signals := signals + [SaveFinished(ok)];
    }

    /** The command line tool's job `id` ended; jobs of others are ignored. */
    method OnBackend(id: nat, ok: bool)
      modifies this, document
      ensures State() == if id == old(saveJob) then SaveEnded(schema, old(State()), disk.file, ok) else old(State())
    {
      if id == saveJob {
        FinishSave(ok);
      }
    }
  }
}
