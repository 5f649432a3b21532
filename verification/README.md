# Verified model of secureEye's core

secureEye logs users in by face. A daemon owns the camera and the face models; a settings program
edits `config.ini` and asks the daemon to enroll, test, list and remove models. This project models
the parts of both where mistakes are hardest to see, and proves what they promise. `dafny verify
dfyconfig.toml` checks all of it.

**config.ini.** `IniLine` reads one line the way the editor's two patterns do, and shows that reading
to be exactly the patterns. `IniSpec` says what a file means and, declaratively, which lines the editor
produces; `IniDocument` is the editor itself, a class whose loops are proved to produce those lines.
`IniPatch` and `IniTheorem` prove the main law: parsing the printed patch gives the old values
overridden by the changes. The lemmas speak of a run, the record of the order in which the editor
visited its hashes; `IniDocument.Patched` returns one for every document and every set of changes.
`IniLocality` says what stays untouched. `ConfigSet` is the second writer, the `set` command;
`SetMeaning` says what it leaves of any file, and `SavePaths` exactly when it does what was asked and when
the two writers agree. `ConfigValues` and `ConfigStore` are the settings as the user interface sees them,
and `ConfigRuns` proves what holds over whole sessions of edits, saves either way, reverts, reloads and
changes made by other programs.

**The camera.** `CameraArbiter` is the monitor, each lock-protected stretch specified as a function on
its state. `CameraSystem` puts any number of logins and management sessions around it, with worker
threads, timeouts, failing starts and cancels, and proves the invariants over every interleaving.
`CancelRace` does the same for the cancel calls of one enrollment and its capture; `Enrollment` is the
frame loop against a declarative reading of the frames.

**Face models.** `TemplateStore` parses, validates, serialises and replaces the file; `TemplateHistory`
follows the ids over whole histories; `ModelChanges` proves that concurrent daemon requests amount to
sequential ones in lock order; `Matching` goes from the stored vectors to the template an accepted face
is attributed to.

**The wire.** `Wire` and `Protocol` are the frames and the daemon's reading and writing of them.
`AuthdRequest` is the client's incremental parser and state machine, `RequestRuns` its whole runs, and
`Transcript` the daemon's handler for one request. `Transcript.ClientHearsTheTranscript` ties both ends
together.

Where the source changes state step by step the model does too: classes with `modifies` and loops with
invariants, each proved against a specification function; the laws are then lemmas about those
functions and about the transition systems built from them.

## Results that differ from a first reading

- `patched` rewrites only the first line of an option while `load` keeps the last, so a change of an
  option on two lines is lost. `IniTheorem.PatchExact` gives the exact condition under which a save does
  what was asked, and `IniLocality.ChangingARepeatedOptionIsLost` a file on which it does not.
- With nothing to change, `patched` turns a lone newline into an empty text; every other text survives
  (`IniLocality.NoChangesIsIdentity`).
- The `set` command finds options by key alone and wants a space after the key. It changes both sections
  when two share a key, and refuses `key=value` lines the editor accepts
  (`SavePaths.SetChangesBothSections`, `SavePaths.SetRefusesTightSpelling`). On an option written twice it is
  the direct save that fails (`SavePaths.SetChangesARepeatedOption`). `SavePaths.SetExact` and
  `SavePaths.WritersAgreeExactly` give the exact conditions.
- An edit made while the command line tool is saving is lost when it succeeds, unless it is what the save
  makes of the file and the edits it started from (`ConfigRuns.LaterEditSurvivesExactly`,
  `ConfigRuns.LaterEditIsLost`).
- The watcher's notice is dropped while a save is running, and a save that fails does not reload. A change
  made underneath meanwhile is then neither loaded nor reported
  (`ConfigRuns.ChangeDuringFailedSaveIsMissed`); `ConfigRuns.NoticeDuringSave` gives the exact condition.
- A save with no edits to save announces success without reading the file again, also when it has changed
  (`ConfigRuns.EndMeansOutcome`).
- A `set` request can be accepted and then, run again on what it has written, be refused
  (`SetMeaning.SecondRunCanBeRefused`). Either way the second run leaves the file alone
  (`SetMeaning.SetIsIdempotent`).
- `docs/auth-protocol-v2.md` section 5 says `models_clear` also removes a file that cannot be read. The code
  lets through what numpy or `int` raise on a hand-edited file, and then the request fails and the file stays
  (`ModelChanges.ClearLeavesNone`, `ModelChanges.TextAmongTheDataCannotBeCleared`).
- Deleting a model file forgets its id mark; new ids are then fresh exactly when no earlier life of the
  file gave out more (`TemplateHistory.FreshExactlyWhen`).
- A face at distance exactly zero from some stored vector is rejected, and so is one whose distance to
  any stored vector is not a number (`Matching.AcceptedExactlyWhen`); the vector just enrolled is one
  (`Matching.EnrolledFrameIsRejected`).
- A cancel can return after the capture has hidden its stream and before the capture itself has released
  it (`CancelRace.CancelCanReturnBeforeTheRelease`), exactly when no cancel looked earlier
  (`CancelRace.CancelReleasesTheStream`); the device is still released exactly once before the capture
  returns.
- A detector that raises after a cancel makes the capture raise, where a failing read would end it as
  cancelled (`CancelRace.CancelThenDetectorRaises`); `CancelRace.CancelledInTime` gives the exact condition.
- `docs/auth-protocol-v2.md` section 4 says `started` means the camera is open. The code sends it when the
  camera has been granted, before the session opens it; the model follows the code.

## Model

| member | source | states |
|---|---|---|
| IniLine.SectionPattern | secureEye/src/gui/src/core/IniDocument.cpp:11-14 | the direct reading of a line finds section name `n` if and only if the line splits into blanks, `[`, `n` without `]`, `]`, blanks |
| IniLine.AssignmentPattern | secureEye/src/gui/src/core/IniDocument.cpp:17-20 | the direct reading yields a list of captures if and only if they concatenate to the line and each lies in its part of the pattern; so the captures are unique |
| IniLine.AssignmentLineReads | secureEye/src/gui/src/core/IniDocument.cpp:62-75 | a line of assignment form is never taken for a header or a comment: it assigns its key the trimmed rest |
| IniLine.ReadsExactly | secureEye/src/gui/src/core/IniDocument.cpp:11-79 | a line opens a section if and only if a bracketed name is all there is but blanks, and then the name trimmed; it assigns an option if and only if it is a key of the allowed characters, an equals sign or a colon and a rest, and then the rest trimmed |
| IniLine.NewValueReads | secureEye/src/gui/src/core/IniDocument.cpp:103-104 | replacing everything after the separator of any assignment line by a trimmed value gives a line assigning that value to the same key, with the same text before it |
| IniLine.OptionLineReads | secureEye/src/gui/src/core/IniDocument.cpp:117 | the line built for a new option reads back as that option with that value |
| IniLine.HeaderLineReads | secureEye/src/gui/src/core/IniDocument.cpp:140 | the header built for a new section opens that section |
| IniLine.AssignIsClean | secureEye/src/gui/src/core/IniDocument.cpp:69-76 | whatever a line assigns has a key of the allowed characters and a trimmed, single-line value |
| Text.LinesOfUnlines | secureEye/src/gui/src/core/IniDocument.cpp:54-60 | splitting joined lines gives the lines back, whether or not a final newline is written; only a lone empty line is lost |
| Text.UnlinesOfLines | secureEye/src/gui/src/core/IniDocument.cpp:162-165 | joining the lines of any text with its own final newline restores the text, except that a lone newline is dropped |
| IniDocument.IniDocument.Load | secureEye/src/gui/src/core/IniDocument.cpp:34-82 | loading any file, also a missing or unreadable one, leaves exactly the entries and values its text stands for; it fails only for the unreadable one |
| IniDocument.IniDocument.ReadLines | secureEye/src/gui/src/core/IniDocument.cpp:62-79 | the loop carrying the current section fills lines and values with the declarative reading, last assignment winning |
| IniDocument.IniDocument.RewriteKnown | secureEye/src/gui/src/core/IniDocument.cpp:85-106 | pass one rewrites exactly the first line of each changed option and leaves pending exactly the changes no line assigns |
| IniDocument.IniDocument.FindInsertAt | secureEye/src/gui/src/core/IniDocument.cpp:126-134 | the index found is one past the last line of the section, moved back over blank lines, or -1 when the section does not occur |
| IniDocument.IniDocument.GroupBySection | secureEye/src/gui/src/core/IniDocument.cpp:112-118 | the remaining changes are grouped under the part of their name before the first slash, in the order visited |
| IniDocument.IniDocument.PlaceSections | secureEye/src/gui/src/core/IniDocument.cpp:121-145 | each group is recorded before its line, or as a new section after a separating empty line where one is needed |
| IniDocument.IniDocument.Rebuild | secureEye/src/gui/src/core/IniDocument.cpp:147-159 | one pass over the rewritten lines places every insertion and appendix where the parsed document says |
| IniDocument.IniDocument.Patched | secureEye/src/gui/src/core/IniDocument.cpp:84-168 | the returned text is the text of a valid run of the declarative patch, for whatever order the two hashes are visited in |
| IniDocument.SavedText | secureEye/src/gui/src/core/ConfigStore.cpp:228-243 | loading and patching a text yields a text meaning exactly what was asked if and only if the request can be honoured; with clean values only changes of repeatedly assigned options are missing |
| IniPatch.PassOneReads | secureEye/src/gui/src/core/IniDocument.cpp:89-106 | after pass one the file reads as before, overridden by the changes of options a single line assigns; it says nothing new of options assigned twice |
| IniPatch.InsertPoint | secureEye/src/gui/src/core/IniDocument.cpp:125-134 | lines inserted at the computed index land inside their section, not in the next one |
| IniPatch.GroupReads | secureEye/src/gui/src/core/IniDocument.cpp:112-118 | a section's added lines assign exactly the remaining options of that section |
| IniPatch.ResultReads | secureEye/src/gui/src/core/IniDocument.cpp:84-168 | the entries of the whole result read as the old values overridden by every change, except changes of repeatedly assigned options |
| IniTheorem.Reload | secureEye/src/gui/src/core/IniDocument.cpp:34-82 | entries whose texts read as meant survive being written and loaded again |
| IniTheorem.PatchTheorem | secureEye/src/gui/src/core/IniDocument.cpp:84-168 | loading what `patched` wrote gives the old values overridden by the changes, minus the changes of options several lines assign, for any text, any changes whose values are clean and whose new options have names that can be written, and any visiting order |
| IniTheorem.PatchExact | secureEye/src/gui/src/core/IniDocument.cpp:84-168 | for changes whose new options have names that can be written, the file means exactly what was asked if and only if every value is trimmed and on one line and no repeatedly assigned option is given a different value |
| IniLocality.LinesKeepTheirOrder | secureEye/src/gui/src/core/IniDocument.cpp:147-160 | every original line appears in the result, in its original order, as pass one left it |
| IniLocality.OnlyValuesDiffer | secureEye/src/gui/src/core/IniDocument.cpp:89-106 | a line differs only if it is the first assignment of a changed option, and only after its separator |
| IniLocality.InsertPointIsTheEnd | secureEye/src/gui/src/core/IniDocument.cpp:125-134 | a section has an insertion point if and only if the file has a line of it, and from that point on its lines are all blank, while the line before is not |
| IniLocality.NewLineIsLast | secureEye/src/gui/src/core/IniDocument.cpp:112-160 | the line of a new option stands after the last line of its section that is not blank and before the blank ones that follow, or after every line if the file lacks the section |
| IniLocality.NewSectionIsSetApart | secureEye/src/gui/src/core/IniDocument.cpp:136-142 | a new section's header follows all lines of the file, with a blank line before it unless it is the first line of all, and a blank line is added only where there is none |
| IniLocality.NoChangesIsIdentity | secureEye/src/gui/src/core/IniDocument.cpp:120-167 | with no changes the loaded text comes back character for character, for every content but the single newline |
| IniLocality.ChangingARepeatedOptionIsLost | secureEye/src/gui/src/core/IniDocument.cpp:73-105 | a file with an option on two lines keeps the second line's value whatever trimmed single-line value is saved |
| ConfigSet.ConfigFile.Set | secureEye/src/cli/set.py:24-72 | all or nothing: a refused request names its reason in the order checked and leaves the file as it was; an accepted one rewrites exactly the matching lines |
| ConfigSet.ConfigFile.CollectUpdates | secureEye/src/cli/set.py:33-34 | later pairs override earlier ones and a name keeps its first place |
| ConfigSet.LastPairWins | secureEye/src/cli/set.py:33-34 | a name has the value of the last pair that mentions it, and none without one |
| ConfigSet.NamesInOrder | secureEye/src/cli/set.py:33-34 | the names are tried in the order of their first mention |
| ConfigSet.RefusedExactly | secureEye/src/cli/set.py:24-57 | a request is refused for its arguments exactly if they are none or odd in number, else for a value exactly if one has a line break, else for a name exactly if no line is taken for it, and is accepted otherwise |
| ConfigSet.ConfigFile.AnyMissing | secureEye/src/cli/set.py:53-57 | reports a missing option if and only if some name is not the chosen name of any line |
| ConfigSet.ConfigFile.Rewrite | secureEye/src/cli/set.py:59-63 | each line is kept, or replaced by the option written afresh, by the first name it starts with |
| ConfigSet.OptionName | secureEye/src/cli/set.py:45-50 | the first requested name that, followed by a space, starts the line |
| SavePaths.RequestIsUnderstood | secureEye/src/gui/src/core/ConfigStore.cpp:253-263 | the arguments built from the pending edits, in any order, make the script see exactly those edits when no two share a key |
| ConfigSet.ReadLinesIsWhole | secureEye/src/cli/set.py:41-42 | the lines read, with their terminators, make up the file |
| SetMeaning.SpacedLineReads | secureEye/src/cli/set.py:45-50 | a line the script rewrites opens no section, and if it assigns anything it is the requested key |
| SetMeaning.NamedValue | secureEye/src/cli/set.py:59-63 | for key names and single-line values: in the written file a requested key has, in every section, the value left by the last line there that is rewritten for it (the requested value, trimmed) or assigns it, and none if there is no such line |
| SetMeaning.OtherValue | secureEye/src/cli/set.py:59-63 | options of other keys keep their values and their absence |
| SetMeaning.SetReads | secureEye/src/cli/set.py:59-70 | for any single-line names and values, the written text, read back, means exactly the rewritten lines, also where a last line gains a newline |
| SetMeaning.SetIsIdempotent | secureEye/src/cli/set.py:41-70 | running any accepted request again leaves the file as the first run left it, to the character, whether or not it is accepted again; it is accepted again if and only if every requested name's new line is taken for that name, as it is for key names |
| SetMeaning.AcceptedIsOneLiners | secureEye/src/cli/set.py:33-57 | every name and every value of an accepted request is one line |
| SetMeaning.SecondRunCanBeRefused | secureEye/src/cli/set.py:45-57 | a request that is accepted and, run again, refused: its two names then start the same line |
| SavePaths.SetExact | secureEye/src/cli/set.py:33-70 | for every accepted request, its edits named by a section and a key without a slash, the written file means the old values overridden by the edits if and only if keys are of the pattern's characters, each edit's last line is rewritten or has the value already and then says exactly that value, and no other section's option of an edited key has its last line rewritten to a new value |
| SavePaths.WrittenValue | secureEye/src/cli/set.py:33-70 | for every accepted request of key names, what each option of the written file says, in terms of the file and the request, also when that is not what was asked |
| SavePaths.WritersAgreeExactly | secureEye/src/gui/src/core/ConfigStore.cpp:228-263 | for every accepted request with trimmed single-line values, the two writers' files mean the same if and only if those line conditions hold of the edits of options no two lines assign |
| SavePaths.SetTheorem | secureEye/src/cli/set.py:59-70 | in particular: when each edited option has exactly one line of the expected form, the file reads as the old values overridden by the updates |
| SavePaths.SavePathsAgree | secureEye/src/gui/src/core/ConfigStore.cpp:228-263 | when moreover no two edits share a key, both ways of saving succeed and their files read as the old values overridden by the edits, whatever order either visits them in |
| SavePaths.SaveableIsHonoured | secureEye/src/gui/src/core/ConfigStore.cpp:253-263 | such edits are accepted by the script and meet its exact condition |
| SavePaths.SetChangesBothSections | secureEye/src/cli/set.py:45-50 | on every file of two sections sharing a key, the accepted request changes the option in both, and the direct save changes the one edited |
| SavePaths.SetChangesARepeatedOption | secureEye/src/cli/set.py:59-63 | on a file with an option on two lines the script changes it to any value, and the direct save leaves it |
| SavePaths.SetRefusesTightSpelling | secureEye/src/cli/set.py:48 | for every key and value, a line `key=value` assigns the option to the editor and is unknown to the script |
| ConfigValues.IntReadsBack | secureEye/src/gui/src/core/ConfigStore.cpp:394-395 | every 32-bit number printed is read back, sign and all |
| ConfigValues.SerializedIsCanonical | secureEye/src/gui/src/core/ConfigStore.cpp:386-425 | the text of any value, of whatever type it came in, is its own canonical form |
| ConfigValues.CanonicalIsIdempotent | secureEye/src/gui/src/core/ConfigStore.cpp:386-388 | canonicalising twice changes nothing more |
| ConfigValues.ValueReadsBack | secureEye/src/gui/src/core/ConfigStore.cpp:390-425 | a boolean, whole number or text written and read back is the same value |
| ConfigValues.BooleansExactly | secureEye/src/gui/src/core/ConfigStore.cpp:390-414 | a boolean in the file is true exactly for 1, true and yes in any case, and a text set is false exactly if empty, 0 or false |
| ConfigValues.SignedDigitsRead | secureEye/src/gui/src/core/ConfigStore.cpp:395-396 | digits with or without a sign read as their number if it fits 32 bits and as 0 otherwise |
| ConfigValues.OtherTextIsZero | secureEye/src/gui/src/core/ConfigStore.cpp:395-396 | only such text reads as anything but 0 |
| ConfigValues.OtherTypesConvert | secureEye/src/gui/src/core/ConfigStore.cpp:409-425 | a value of another type is written as what it converts to: a number is true unless 0, a truth value is 1 or 0 as a number and its own word as text, a number as text is its own digits |
| ConfigStore.ConfigStore.Load | secureEye/src/gui/src/core/ConfigStore.cpp:165-205 | drops the edits, takes every setting's canonical value from the file or its default, and emits the listed signals in order, also when the file cannot be read |
| ConfigStore.ConfigStore.Set | secureEye/src/gui/src/core/ConfigStore.cpp:299-323 | ignores an unknown setting and an unchanged value, forgets an edit back to the value on disk, records any other, and announces it |
| ConfigStore.ConfigStore.Reset | secureEye/src/gui/src/core/ConfigStore.cpp:325-332 | is setting the canonical default |
| ConfigStore.ConfigStore.Revert | secureEye/src/gui/src/core/ConfigStore.cpp:276-288 | discards all edits and names each one, in any order |
| ConfigStore.ConfigStore.OnFileChanged | secureEye/src/gui/src/core/ConfigStore.cpp:86-101 | does nothing while saving or when the text is the one loaded; otherwise reloads, or only reports when there are edits |
| ConfigStore.ConfigStore.KeepEdits | secureEye/src/gui/src/core/ConfigStore.cpp:103-112 | takes back the report of a change on disk and nothing else |
| ConfigStore.ConfigStore.WriteDirectly | secureEye/src/gui/src/core/ConfigStore.cpp:228-251 | patches the file as it is now, replaces it and reloads; if it cannot be read or replaced only a failure is announced |
| ConfigStore.ConfigStore.WriteThroughCli | secureEye/src/gui/src/core/ConfigStore.cpp:253-263 | hands over every edit once, named by the part after the first slash |
| ConfigStore.ConfigStore.Save | secureEye/src/gui/src/core/ConfigStore.cpp:207-226 | the four ways a save can go, by who may write; the tool is handed the edits as they are |
| ConfigStore.ConfigStore.OnBackend | secureEye/src/gui/src/core/ConfigStore.cpp:142-163 | only the job being saved ends the save; success reloads, failure keeps the edits |
| ConfigRuns.EventKeepsInv | secureEye/src/gui/src/core/ConfigStore.cpp:165-332 | every operation and every outside event keeps: no edit equals its value on disk, all values canonical, exactly the schema's settings known |
| ConfigRuns.EventKeepsLoaded | secureEye/src/gui/src/core/ConfigStore.cpp:165-205 | at every point of every session the values on disk are those the text last read says |
| ConfigRuns.DirtyMeansDifferent | secureEye/src/gui/src/core/ConfigStore.cpp:299-343 | at every point of every session the store is dirty exactly when some setting shows another value than was read from disk |
| ConfigRuns.EditIsShown | secureEye/src/gui/src/core/ConfigStore.cpp:299-323 | after setting a value it is shown, it is pending exactly if the disk has another, and no other setting changes |
| ConfigRuns.ResetShowsTheDefault | secureEye/src/gui/src/core/ConfigStore.cpp:325-332 | after a reset the canonical default is shown, it is pending exactly if the disk has another value, and no other setting changes |
| ConfigRuns.RevertShowsTheDisk | secureEye/src/gui/src/core/ConfigStore.cpp:276-288 | after a revert every setting shows its value on disk, and nothing else changes |
| ConfigRuns.UnknownIsIgnored | secureEye/src/gui/src/core/ConfigStore.cpp:299-329 | setting or resetting what the schema does not know changes nothing |
| ConfigRuns.TransitionsAreAnnounced | secureEye/src/gui/src/core/ConfigStore.cpp:103-322 | every change of the dirty, saving and changed-on-disk states is announced exactly once and nothing else is |
| ConfigRuns.AnnouncementsTellTheState | secureEye/src/gui/src/core/ConfigStore.cpp:86-332 | over a whole session the number of announcements tells each of the three states |
| ConfigRuns.ChangesAreTold | secureEye/src/gui/src/core/ConfigStore.cpp:200-319 | whatever happens, a setting whose shown value changes is announced by section and key |
| ConfigRuns.FileChangesAreNoticed | secureEye/src/gui/src/core/ConfigStore.cpp:86-101 | after the watcher's delay the text shown is the file's, or the user has been told it is not, if and only if no save is running or this was so before; edits are never dropped by it |
| ConfigRuns.NoticeDuringSave | secureEye/src/gui/src/core/ConfigStore.cpp:92-274 | a notice that comes during a save is made good when the save ends if and only if it succeeds, unless the change was loaded or reported before |
| ConfigRuns.ChangeDuringFailedSaveIsMissed | secureEye/src/gui/src/core/ConfigStore.cpp:86-274 | a whole session, from opening the store, for any two files: the file is replaced and the notice comes while the tool works, the tool fails, and the store is idle, out of date and says nothing |
| ConfigRuns.FailedSaveChangesNothing | secureEye/src/gui/src/core/ConfigStore.cpp:207-274 | a save that ends in failure changes no value, no edit and not the file |
| ConfigRuns.RefusedSaveKeepsAll | secureEye/src/gui/src/core/ConfigStore.cpp:253-274 | a request the tool refuses leaves the file as it was, and its failure leaves the edits to be saved again |
| ConfigRuns.EndsAreAnnounced | secureEye/src/gui/src/core/ConfigStore.cpp:207-274 | every event announces the end of a save exactly when it ends one, once, and as it ended: the tool's as its job did, a direct one as well if and only if the file could be read and replaced |
| ConfigRuns.EndMeansOutcome | secureEye/src/gui/src/core/ConfigStore.cpp:207-274 | a save announced as good leaves no edits and, unless there were none to save, the file as last read; one announced as failed keeps the edits and everything else; with edits to save the announcement is good if and only if they are gone |
| ConfigRuns.EverySaveIsAnnounced | secureEye/src/gui/src/core/ConfigStore.cpp:207-274 | over a whole session the announcements of either kind are as many as the saves that ended so, and together with one still running as many as the saves begun |
| ConfigRuns.LoadAnnounces | secureEye/src/gui/src/core/ConfigStore.cpp:165-205 | a load announces a failure exactly when the file cannot be read, and problems and writability once |
| ConfigRuns.CliSaveExact | secureEye/src/gui/src/core/ConfigStore.cpp:253-274 | handing the edits to the tool, running it and hearing of its success leaves exactly the edits over the file's values if and only if the script's exact condition holds |
| ConfigRuns.CliSavedEditIsShown | secureEye/src/gui/src/core/ConfigStore.cpp:253-274 | then every edit is in the file and is shown as before, and nothing is pending |
| ConfigRuns.SaveableEditIsShown | secureEye/src/gui/src/core/ConfigStore.cpp:253-274 | in particular for edits both writers understand |
| ConfigRuns.CliSaveDropsLaterEdits | secureEye/src/gui/src/core/ConfigStore.cpp:265-274 | once the tool has succeeded no edit is pending, made before or meanwhile, and every setting shows what the file says |
| ConfigRuns.SavedIsShown | secureEye/src/gui/src/core/ConfigStore.cpp:253-274 | for every accepted request, whatever is edited meanwhile: once the tool has succeeded each setting shows the canonical form of what the request makes of the file it started from |
| ConfigRuns.HonouredSaveShowsTheStart | secureEye/src/gui/src/core/ConfigStore.cpp:253-274 | when the file is the one last read and the script's exact condition holds, every setting ends up showing what it showed when the save started |
| ConfigRuns.LaterEditSurvivesExactly | secureEye/src/gui/src/core/ConfigStore.cpp:265-274 | an edit made while the tool works is still shown afterwards if and only if its text is the canonical form of what the tool makes of the file and the edits it started from; when the file is the one last read and the script's exact condition holds, that is the text shown when the save started |
| ConfigRuns.LaterEditIsLost | secureEye/src/gui/src/core/ConfigStore.cpp:253-274 | a whole session, from opening the store, in which an edit made meanwhile is shown and then gives way to the saved one |
| ConfigRuns.DirectSaveExact | secureEye/src/gui/src/core/ConfigStore.cpp:228-251 | a direct save writes exactly the edits over the file's values if and only if each edit is trimmed and on one line and no repeatedly assigned option changes |
| ConfigRuns.SavedEditIsShown | secureEye/src/gui/src/core/ConfigStore.cpp:228-251 | after a direct save of trimmed single-line edits, each edit of a not repeated option is in the file and shown as before, and nothing is pending |
| CameraArbiter.CameraArbiter.BeginAcquire | secureEye/src/authd/camera.py:43-61 | the first stretch of `acquire` takes, refuses or sleeps, counts a login in and out, and cancels a management holder, as the monitor's specification says |
| CameraArbiter.CameraArbiter.ResumeAcquire | secureEye/src/authd/camera.py:48-61 | the stretch after a wake-up, likewise |
| CameraArbiter.CameraArbiter.Release | secureEye/src/authd/camera.py:63-72 | frees the camera and wakes everyone if and only if the session is the holder |
| CameraSystem.StepKeepsInv | secureEye/src/authd/camera.py:35-85 | the system invariant survives every lock-protected stretch, wake-up, timeout, worker step and cancel |
| CameraSystem.NoLostWakeup | secureEye/src/authd/camera.py:48-72 | in every reachable state a thread asleep in `wait` and not notified cannot take the camera |
| CameraSystem.FreeCameraIsTaken | secureEye/src/authd/camera.py:48-61 | if the camera is free and anyone waits, someone inside is awake and its next stretch takes it |
| CameraSystem.LoginPriority | secureEye/src/authd/camera.py:44-85 | between a login entering and leaving `acquire` no management session is granted |
| CameraSystem.AuthWaitingCounts | secureEye/src/authd/camera.py:45-59 | the counter equals the number of logins inside `acquire` |
| CameraSystem.WaitingLoginHasCancelledTheHolder | secureEye/src/authd/camera.py:48-50 | while a login is inside and a management session holds, that session has been cancelled |
| CameraSystem.ArbiterCancelsTheManagementHolder | secureEye/src/authd/camera.py:49-50 | the arbiter cancels only the management session holding the camera, and only for a login |
| CameraSystem.LoginIsNeverPreempted | secureEye/src/authd/camera.py:49-50 | no login is ever cancelled by the arbiter |
| CameraSystem.RefusedOnlyWhenTaken | secureEye/src/authd/camera.py:51-53 | `acquire` gives up only past its deadline and at an instant when the camera cannot be taken |
| CameraSystem.AcquireDecides | secureEye/src/authd/camera.py:43-61 | what a stretch inside `acquire` decides, for any session: it is granted the camera if and only if no grant is outstanding and, for management, no login is inside; it is refused if and only if that fails and its deadline has passed; otherwise it sleeps on with the same deadline |
| CameraSystem.PastDeadlineReturns | secureEye/src/authd/camera.py:48-56 | past its deadline a session inside `acquire` returns: asleep it can be timed out and then decides, awake it decides next, and either way it is granted or refused |
| CameraSystem.DeadlineOfTheCall | secureEye/src/authd/camera.py:43 | the deadline a session waits for is that of its call, the timeout from then and none below zero, for as long as it waits |
| CameraSystem.CancelIsForGood | secureEye/src/authd/main.py:153-158 | a session cancelled by its client, by its handler giving up or by a login stays cancelled |
| CameraSystem.ExclusiveUse | secureEye/src/authd/main.py:140-152 | at most one session's run executes, and it is the holder's |
| CameraSystem.TimedOutLoginKeepsTheCamera | secureEye/src/authd/main.py:153-158 | a login whose handler gave up keeps the camera until its run has ended |
| CameraSystem.GrantIsGivenBackOnce | secureEye/src/authd/manage.py:184-199 | each grant is given back at most once, and one not yet given back holds the camera and has an enabled next step towards it |
| CameraSystem.DistanceNeverGrows | secureEye/src/authd/main.py:145-165 | no step of any thread takes the return of a grant further away |
| CameraSystem.DroppedNeverRuns | secureEye/src/authd/main.py:145-165 | a session whose run could not be handed over or begun, or was dropped while queued, never runs, and its grant has been given back or can be at once |
| TemplateStore.ParseVectors | secureEye/src/auth/template_store.py:393-423 | the loop with its remembered dimension accepts exactly non-empty lists of flat vectors of finite numbers of one dimension, numbers being what numpy converts (numeric strings and booleans too); otherwise it gives the first fault, an exception of numpy included |
| TemplateStore.StoreRoundTrip | secureEye/src/auth/template_store.py:333-462 | what is serialised for any list of valid tagged templates parses back unchanged, whatever default space the reader assumes; the empty list reads as empty |
| TemplateStore.WrittenEntryDeclares | secureEye/src/auth/template_store.py:449-462 | a written entry declares every field under its present name, its dimension and its space included, and no other |
| TemplateStore.LoadedIsTagged | secureEye/src/auth/template_store.py:333-390 | every template that loads has a space and a non-empty rectangular matrix of finite numbers |
| TemplateStore.ParsedEntryIsFaithful | secureEye/src/auth/template_store.py:358-390 | an entry that parses holds every encoding in order, a dimension that agrees with them, its id or else its position, and its own space if it names one and the reader's otherwise |
| TemplateStore.VectorParsesExactly | secureEye/src/auth/template_store.py:399-411 | an encoding parses if and only if it is a flat, non-empty list of finite numbers, and gives those |
| TemplateStore.EntryParsesExactly | secureEye/src/auth/template_store.py:358-390 | an entry parses to a template if and only if it describes it, field by field, the old name of the creation time included |
| TemplateStore.FileParsesExactly | secureEye/src/auth/template_store.py:333-355 | a file parses if and only if it is an object of this version or a bare list, with at least one entry, each describing its template; it counts as empty exactly when it has none |
| TemplateStore.LoadsAllExactly | secureEye/src/auth/template_store.py:127-355 | managing models loads exactly what parses with untagged entries taken to be of the oldest recognizer; only a missing file is not found |
| TemplateStore.AddsExactlyWhen | secureEye/src/auth/template_store.py:167-258 | a template is stored if and only if the file loads or counts as empty and the array is non-empty and finite; it is then what was supplied, under an id above all others and not below the mark; otherwise the file is as it was |
| TemplateStore.ResavingKeepsTemplates | secureEye/src/auth/template_store.py:127-152 | saving what was loaded and loading it again gives the same templates, whoever wrote the file |
| TemplateStore.NextIdOf | secureEye/src/auth/template_store.py:261-268 | one above the highest id, whatever its sign, and 0 for none |
| TemplateStore.MarkIsTheField | secureEye/src/auth/template_store.py:282-298 | the mark is the number in its field if that is a whole number above 0, and 0 for any other file |
| TemplateStore.FindFrom | secureEye/src/auth/template_store.py:301-311 | the first template with the id, or none if there is none |
| TemplateStore.TemplateFile.Save | secureEye/src/auth/template_store.py:137-152 | replaces the file in one step with the templates and a mark that never sinks |
| TemplateStore.TemplateFile.Delete | secureEye/src/auth/template_store.py:155-164 | removes the file, or says there was none |
| TemplateStore.TemplateFile.Append | secureEye/src/auth/template_store.py:167-193 | adds under the next free id, or leaves the file as it was |
| TemplateStore.TemplateFile.ReplaceSpace | secureEye/src/auth/template_store.py:196-228 | replaces the space under the next free id, or leaves the file as it was |
| TemplateStore.SavedReadsBack | secureEye/src/auth/template_store.py:137-298 | a saved list loads back, and its mark is at least the old mark and above every id |
| TemplateStore.AppendAddsLast | secureEye/src/auth/template_store.py:184-193 | after an append the file holds the old templates unchanged and the new one last |
| TemplateStore.ReplaceKeepsOtherSpaces | secureEye/src/auth/template_store.py:218-228 | after a re-enrollment the space holds exactly the new template and every other space is kept unchanged and in order |
| TemplateHistory.IdsAreFresh | secureEye/src/auth/template_store.py:137-298 | over any run that never deletes the file, a new id is above every id ever given out, ids in the file are distinct, and the mark is above all of them |
| TemplateHistory.IdCountsTheLife | secureEye/src/auth/template_store.py:261-298 | a new id is the number of ids given out since the file was last deleted |
| TemplateHistory.IssuedAreTheLives | secureEye/src/auth/template_store.py:261-298 | over all deletions the ids given out are the initial segments 0, 1, 2, ... of each life of the file |
| TemplateHistory.FreshExactlyWhen | secureEye/src/auth/template_store.py:155-298 | with deletions, a new id is unused before if and only if no earlier life of the file gave out more ids than the present one |
| TemplateHistory.DeletingReusesIds | secureEye/src/auth/template_store.py:155-298 | enrolling, deleting and enrolling again gives out id 0 twice |
| ModelChanges.ChangeModels | secureEye/src/authd/manage.py:120-143 | the handler's steps on the file amount to the operation as specified, in reply and in file |
| ModelChanges.RemoveTakesOne | secureEye/src/authd/manage.py:135-143 | a removal takes exactly the first template with the id and keeps the rest in order; otherwise the file is untouched and the reply says why |
| ModelChanges.ClearLeavesNone | secureEye/src/authd/manage.py:125-133 | clearing leaves no templates, also when the file could not be read, if and only if reading did not raise an exception other than the store's own; then the request fails and the file stays |
| ModelChanges.TextAmongTheDataCannotBeCleared | secureEye/src/authd/manage.py:125-133 | for every text that is no number, a file with it among its data is such a file: clearing it fails |
| ModelChanges.ListShowsTheFile | secureEye/src/authd/manage.py:95-107 | a list holds exactly the file's templates in order: an id is listed if and only if it can be removed, nothing is listed if and only if there is nothing to clear, a list is as long as what a clear removes, and a damaged file is answered as a removal would be |
| ModelChanges.ListAfterChange | secureEye/src/authd/manage.py:94-143 | after a successful enrollment the list is the old one, or its other spaces, followed by the new template; after a removal it lacks exactly the first template with the id; after a clear it is empty; after any other answer the file is as it was |
| ModelChanges.PlanIsTheOperation | secureEye/src/authd/manage.py:120-143 | a handler that read the file earlier under the lock commits exactly what the operation run alone would |
| ModelChanges.StepKeepsInv | secureEye/src/authd/manage.py:94-202 | every step of every handler, also a read or write that raises, keeps the file equal to the replay of the log |
| ModelChanges.ChangesAreSerializable | secureEye/src/authd/manage.py:94-202 | at every point of every interleaving each file is what the committed operations leave one after another, and each was answered as it would have been then |
| ModelChanges.AnswersComeFromTheHistory | secureEye/src/authd/manage.py:85-143 | the history consists of the clients' own requests, and an answered request was executed there with that answer, failed there without changing anything, or never got the lock |
| ModelChanges.LogFollowsTheLock | secureEye/src/authd/manage.py:110-202 | the sequential order is the order in which the lock was taken |
| ModelChanges.ListsSeeTheHistory | secureEye/src/authd/manage.py:95-108 | an unlocked list answers from a state of that sequential history |
| ModelChanges.ViewShowsTheHistory | secureEye/src/authd/manage.py:95-108 | at every point of every run, each list given shows the templates that could have been removed at its place in the sequential history |
| ModelChanges.EnrollmentIsListed | secureEye/src/authd/manage.py:95-202 | in every run, an enrollment answered with success is the last template of the user's next list, after those listed before it or those of other spaces |
| Matching.Stack | secureEye/src/auth/template_store.py:426-446 | gives the stacked rows and their owners if and only if all templates have one dimension |
| Matching.EncodingHasItsRow | secureEye/src/auth/template_store.py:438-445 | every encoding of every template is the row at its template's prefix offset, and that row is owned by the template |
| Matching.RowHasItsOwner | secureEye/src/auth/template_store.py:80-88 | every row is an encoding of the template that owns it, at that template's prefix offset |
| Matching.LoadedIsValid | secureEye/src/auth/template_store.py:106-124 | what loads has rows, an owner for each, and exactly the file's templates of the space |
| Matching.LoadsExactlyWhen | secureEye/src/auth/template_store.py:106-446 | a file that parses loads for a space if and only if some template is of it and all of it have one dimension; none of it is the mismatch error |
| Matching.ArgMin | secureEye/src/auth/matching.py:14 | the first position of the least distance, not-a-number counting as least |
| Matching.BestMatch | secureEye/src/auth/matching.py:9-15 | a row at the reported distance; no row is nearer and every earlier row is farther |
| Matching.MatchNamesTheNearest | secureEye/src/auth/pipeline.py:42-103 | a compared face has an owner of the recognizer's space with an encoding at the reported distance, and no stored encoding of the space is nearer; a face failing liveness has none |
| Matching.AcceptedExactlyWhen | secureEye/src/auth/pipeline.py:79-97 | a face is accepted if and only if liveness did not fail, some encoding is nearer than the threshold, and none is at distance zero or not a number |
| Matching.EnrolledFrameIsRejected | secureEye/src/auth/matching.py:18-19 | a face just enrolled, its distance to itself being zero, is not accepted when the same vector is compared again |
| Matching.ReenrolledOwnsEveryRow | secureEye/src/auth/template_store.py:106-228 | loading a space after re-enrolling it gives the new template alone, owning every row |
| Wire.LengthOfHeader | secureEye/src/authd/protocol.py:97 | the length in a written header is the length written |
| Wire.HeaderOfLength | secureEye/src/authd/protocol.py:70-71 | every four bytes are the header of the length they give, so a stream has one cutting into frames |
| Protocol.Connection.ReadExact | secureEye/src/authd/protocol.py:35-57 | returns exactly the next bytes however they arrive; with a deadline a trickling peer cannot make it succeed late; it times out only past the deadline, or without one by the socket's own timeout; a close is reported only if bytes are missing |
| Protocol.Connection.ReadFrame | secureEye/src/authd/protocol.py:60-82 | unless the deadline or the socket's own timeout passes, the result and what is left depend on the bytes alone |
| Protocol.Connection.WriteFrame | secureEye/src/authd/protocol.py:85-97 | sends the whole frame, or nothing when it is too large; a socket failure leaves a proper prefix |
| Protocol.FrameRoundTrip | secureEye/src/authd/protocol.py:60-97 | a frame written within the request limit is read back as its message and nothing beyond it is touched |
| Protocol.OnlyFramesAreRead | secureEye/src/authd/protocol.py:60-82 | a successful read consumed exactly the frame of a body within the limit that decodes to the message |
| Protocol.ReadFailsExactly | secureEye/src/authd/protocol.py:60-82 | a read fails as closed exactly when the stream ends before a frame of valid length is whole, for its length exactly when that is not 1 to 4096, and for its body exactly when it is whole and no message; what it took off the stream is said for each |
| AuthdRequest.AuthdRequest.OnReadyRead | secureEye/src/gui/src/system/AuthdRequest.cpp:140-162 | the consuming loop does what draining the buffer is specified to do |
| AuthdRequest.AuthdRequest.HandleMessage | secureEye/src/gui/src/system/AuthdRequest.cpp:164-194 | each kind of message moves the request as specified; a foreign version or id ends it |
| AuthdRequest.AuthdRequest.Finish | secureEye/src/gui/src/system/AuthdRequest.cpp:211-220 | ends the request once; a second call does nothing |
| AuthdRequest.AuthdRequest.On | secureEye/src/gui/src/system/AuthdRequest.cpp:104-138 | starting, dialling, connecting, losing the connection, timing out and cancelling, as specified |
| AuthdRequest.DrainThenMore | secureEye/src/gui/src/system/AuthdRequest.cpp:140-162 | draining what has arrived and then more is draining everything at once |
| AuthdRequest.ChunksDoNotMatter | secureEye/src/gui/src/system/AuthdRequest.cpp:140-162 | for any cutting of the stream into reads the request ends up as if it had been read at once, down to the bytes it has handled; while unfinished, down to the bytes still waiting |
| AuthdRequest.BytesAreConserved | secureEye/src/gui/src/system/AuthdRequest.cpp:141-152 | consumed bytes and buffer are always the first of the bytes received, and all of them until the request finishes; until then what waits is less than one frame |
| AuthdRequest.DrainPlays | secureEye/src/gui/src/system/AuthdRequest.cpp:142-161 | receiving whole frames amounts to handling their contents one by one, with no buffer and no lengths |
| AuthdRequest.StreamIsPlayed | secureEye/src/gui/src/system/AuthdRequest.cpp:140-162 | any cutting of a stream of frames, cut off or not, makes the request handle exactly those frames' messages up to its end |
| RequestRuns.EndsAtMostOnce | secureEye/src/gui/src/system/AuthdRequest.cpp:104-220 | over any sequence of socket, timer and user events the request ends at most once, last, and after that signals and sends nothing |
| RequestRuns.IdleRequestsEnd | secureEye/src/gui/src/system/AuthdRequest.cpp:61-178 | a started request that has not ended has its timer running, which ends it, and never buffers more than a frame |
| RequestRuns.CancelsAreSent | secureEye/src/gui/src/system/AuthdRequest.cpp:119-138 | over any events, as many cancel messages are sent as the user cancelled a session that had begun and not ended, and the request itself as often as a connection was made, at most once |
| RequestRuns.EventsSay | secureEye/src/gui/src/system/AuthdRequest.cpp:104-220 | what every event but reading adds to the signals: a cancel ends a request as cancelled unless its session is under way, a socket error before the request was sent is an unavailable daemon and later a lost connection unless the peer closed, and an ended request says nothing |
| RequestRuns.StartedCanConnect | secureEye/src/gui/src/system/AuthdRequest.cpp:104-138 | a started request can dial and then be connected, and then has sent itself |
| RequestRuns.BadMessageIsReported | secureEye/src/gui/src/system/AuthdRequest.cpp:150-180 | a stream of expected messages and then a bad one, cut in whatever way, is reported up to the bad one: an old daemon's answer as outdated, a wrong version, a wrong id or no message as a protocol error |
| RequestRuns.BadLengthIsReported | secureEye/src/gui/src/system/AuthdRequest.cpp:142-147 | so is a stream that goes on with a length of 0 or above the limit |
| RequestRuns.UnknownKindIsIgnored | secureEye/src/gui/src/system/AuthdRequest.cpp:193 | a message of an unknown kind only restarts the timer |
| RequestRuns.TranscriptIsReported | secureEye/src/gui/src/system/AuthdRequest.cpp:140-194 | a daemon transcript, cut in whatever way, is reported message by message and ends with its result |
| RequestRuns.BrokenStreamIsReported | secureEye/src/gui/src/system/AuthdRequest.cpp:196-198 | a stream that breaks off reports the whole messages that came and then the lost connection, once |
| RequestRuns.WrittenEventsAreAccepted | secureEye/src/authd/protocol.py:85-97 | every frame the daemon may write as an event passes the client's length check and is handled with its own content |
| Transcript.Handler.Handle | secureEye/src/authd/manage.py:55-91 | never throws; sends at most one result and nothing after it, and the exact transcript when no write fails; lock and camera are given back on every path; the file changes exactly when the operation ran |
| Transcript.Handler.ModelsRequest | secureEye/src/authd/manage.py:94-117 | takes the lock only for changes, gives it back, and answers with the operation's reply, busy, or the fault |
| Transcript.Handler.CameraSession | secureEye/src/authd/manage.py:158-208 | brackets the camera inside the models lock, tells the client it started before running, and renames a cancelled result when a login took the camera |
| Transcript.Handler.RunSession | secureEye/src/authd/manage.py:234-259 | sends one frame event per report until one cannot be sent |
| Transcript.EscapingEncoderFits | secureEye/src/authd/protocol.py:85-97 | the one assumption on the encoder, that the handler's own short messages fit, is met by every encoder spending on the messages sent at most twelve bytes a character and a thousand besides |
| Transcript.SomeEncoderFits | secureEye/src/authd/protocol.py:85-97 | such an encoder exists among those that write out every text, the kind's name and the digits of the version, whatever the message |
| Transcript.ToldIsTranscript | docs/auth-protocol-v2.md:17-18 | for every request and every surrounding, the messages are `result` or `started frame* result` |
| Transcript.ToldIsExpected | secureEye/src/authd/manage.py:64-91 | a client that sent the id accepts every one of the messages, also when the id itself was refused |
| Transcript.RefusalIsTold | secureEye/src/authd/manage.py:63-79 | a request without a text id of 1 to 64 characters or with a bad field is told it is invalid, and one for another user that it is forbidden; neither touches the file |
| Transcript.ListIsTold | secureEye/src/authd/manage.py:95-108 | a list is told the file's templates, a damaged file as such, and nothing changes |
| Transcript.ChangeIsTold | secureEye/src/authd/manage.py:110-143 | a change is told busy without the lock, and otherwise what it did, which is what the file shows |
| Transcript.FaultIsTold | secureEye/src/authd/manage.py:81-91 | what raises on the way is told as an invalid device or an internal error, and leaves the file |
| Transcript.SessionIsTold | secureEye/src/authd/manage.py:158-208 | a camera session is told busy without the lock it needs or the camera; otherwise that it started, the reports up to the first too big, and how it ended, with a cancelled end told as pre-empted if and only if a login took the camera |
| Transcript.ClientHearsTheTranscript | secureEye/src/gui/src/system/AuthdRequest.cpp:140-194 | from the handler to the client's signals, for every encoder and decoder that undo each other and meet that assumption: every frame fits, and however the bytes are cut the client reports exactly the transcript and has finished |
| Enrollment.EnrollSession.Capture | secureEye/src/auth/enrollment.py:113-201 | the frame loop, with any cancel and any raising read, detector or embedder, gives what the frames alone decide, a cancelled outcome, or the exception |
| Enrollment.LoopIsClassified | secureEye/src/auth/enrollment.py:172-197 | the flag and counters at the loop's end decide what the frames looked at decide |
| Enrollment.ResultMeansFrames | secureEye/src/auth/enrollment.py:156-197 | each of the five results of the frames holds if and only if they are of the matching kind, and a success takes the first frame with exactly one face |
| Enrollment.CapturingExactly | secureEye/src/auth/enrollment.py:139-197 | the capture succeeds if and only if some frame within the limit has exactly one face, no check has seen a cancel and the embedder does not raise; each stage raises exactly when it is reached and does; it is cancelled in all cases left over but those the frames decide |
| Enrollment.EnrollingExactly | secureEye/src/auth/enrollment.py:90-96 | the store is reached if and only if the recognizer is of the active space, the capture finds and embeds a face, and no cancel came since; the result is a model mismatch if and only if the spaces differ |
| Enrollment.StatisticsMeanFrames | secureEye/src/auth/enrollment.py:156-186 | the counts of an outcome are the numbers of usable and of dark frames among those looked at, and its total darkness lies between their bounds times their number |
| Enrollment.EnrollSession.Run | secureEye/src/auth/enrollment.py:81-111 | a template is stored if and only if the recognizer is of the draft's space, a face is found and embedded without a cancel at any check, and the store accepts the draft, and the file is then exactly what the enroll operation leaves; the result is a mismatch if and only if the spaces differ |
| Enrollment.FrameStream.Release | secureEye/src/auth/capture.py:157-169 | however often it is called the device is let go once |
| CancelRace.CaptureKeepsInv | secureEye/src/auth/enrollment.py:113-201 | every step of the capturing thread keeps the accounting of locks, flags and releases |
| CancelRace.CancelKeepsInv | secureEye/src/auth/enrollment.py:74-79 | so does every step of every cancelling thread |
| CancelRace.ReleasedExactlyWhen | secureEye/src/auth/enrollment.py:74-201 | past the check after publishing the stream is released if and only if some cancel looked while it was published, or that check found the event set, or the finally block has got to it |
| CancelRace.CancelReleasesTheStream | secureEye/src/auth/enrollment.py:74-201 | once a cancel has returned and the capture is past that check the stream is released, except exactly in the window of the finally block before its own release when no cancel looked before and the check found nothing |
| CancelRace.DeviceReleasedOnce | secureEye/src/auth/enrollment.py:198-201 | the device is never released twice, and exactly once by the time a capture that opened it returns |
| CancelRace.CancelledInTime | secureEye/src/auth/enrollment.py:136-170 | a capture reached by a cancel before its last check raises with its stream open if and only if the detector, which is not guarded, has raised since while a frame was being read; otherwise it may still notice, ends as cancelled, or its camera never opened |
| CancelRace.CancelThenDetectorRaises | secureEye/src/auth/enrollment.py:136-170 | a run in which a cancel comes in time and the detector then raises, so the capture raises |
| CancelRace.CancelledNeverWrites | secureEye/src/auth/enrollment.py:94-103 | nothing is stored and the enrollment does not succeed if the cancel was set before its last check |
| CancelRace.WritesExactlyOnSuccess | secureEye/src/auth/enrollment.py:97-111 | the store is written exactly by an enrollment that succeeds |
| CancelRace.SuccessNeedsAFace | secureEye/src/auth/enrollment.py:156-197 | in every interleaving nothing is stored, and no enrollment succeeds, without a frame with a single face that was embedded without raising and without a cancel before |
| CancelRace.FaceIsStored | secureEye/src/auth/enrollment.py:94-197 | a face found in a frame is on its way to the store, and stored by the end, unless a cancel comes or something raises |
| CancelRace.ObserverCancels | secureEye/src/auth/enrollment.py:203-224 | an observer that raises cancels the enrollment: the event is set before the capture goes on |
| CancelRace.OpensExactly | secureEye/src/auth/enrollment.py:119 | the stream is open exactly once the camera has opened; if it does not open the capture raises |
| CancelRace.CancelCanReturnBeforeTheRelease | secureEye/src/auth/enrollment.py:198-201 | a run in which a cancel returns between the hiding of the stream and its release, with the device still open |

## Left out

Assumptions made where the model meets code it does not contain:

- Text decoding, carriage returns removed by text mode, and the timing of file system watchers: files are texts, replaced in one step.
- The regular expression engine: the two patterns are read character by character; `IniLine.SectionPattern` and `IniLine.AssignmentPattern` show that reading to be the patterns' own decomposition.
- The order of sections in pass two is any order, which includes the sorted one the code uses.
- Qt's case-insensitive comparison and number parsing beyond ASCII letters and digits; printing, parsing and rounding of floating-point numbers are functions, of which only that printing is stable under reading back is assumed.
- Validation messages of settings (`problems`), the writability test and the boolean meaning of `on`: `canonical` reads `on` as false although `validate` accepts it, and only the canonical form is modelled.
- Slots that call back into the store or the request from inside one of its signals.
- JSON text, base64 and image encoding: a decoder is any function from bytes to messages, and template files are JSON values. Labels of a hand-edited file that Python would turn into text are not coerced, and a template file is text that decodes.
- Template files not written by this program: a file without a stored mark, and untagged templates, whose space depends on the reader, are parsed as the code does, but the laws about ids and round trips are stated for files the store wrote.
- Arrays are rectangular, as numpy's are; vectors of the wrong length offered to the matcher raise in numpy and are not modelled; distances come from an arbitrary metric.
- Images, detectors and cameras: a frame is black, dark, or lit with a number of faces; reading one may fail.
- Average darkness is modelled by its total and its count.
- A socket write that fails delivers nothing in `Transcript`; `Protocol.Connection.WriteFrame` itself allows a partial frame.
- Transcript.Handler.Handle: assumes of the encoder only that `started` and the handler's own results, with an id of at most 64 characters, fit into an event frame (`Transcript.EscapingEncoderFits`), which encoders meet (`Transcript.SomeEncoderFits`).
- TemplateStore.ParseVectors: a number is its float32 value; which real a JSON number or numeric string rounds to, and that a number beyond the range becomes infinite, is not computed.
- Protocol.Connection.Recv: a receive with a time limit is assumed to return within it.
- Command line tools writing model files while the daemon runs: they do not take the models lock, so nothing is proved of them.
- Fairness: no order is promised among waiting logins, and none is proved; `CameraSystem.FreeCameraIsTaken` and `CameraSystem.GrantIsGivenBackOnce` say only that the next step is always there.
- CameraSystem.GrantIsGivenBackOnce: a grant's return always has an enabled next step and never gets further away; that a session's run itself ends is assumed.
- IniTheorem.PatchTheorem: a new option whose section is empty, padded or contains `]`, or whose key is not of the pattern's characters, is outside it unless its section is already in the file. So is it outside SavePaths.WritersAgreeExactly, which compares with the direct save. The settings store never has such an edit (`ConfigRuns.EditsFit`).
- The `v1` login handler around the session, access checks by user id, request validation field by field, preview rate limiting, and snapshots.
- The PAM module, D-Bus, pkexec, QML, the remaining command line scripts, packaging.
