# Verified models of hMailServer's administration and tooling logic

A Dafny model of the parts of hMailServer whose logic spans several operations, with proofs about every input,
every run or every reachable state:

* **The profile editor** (`IniFile.cs`): a line-preserving editor of `.ini` files. `Blocks` and `Sections` hold the
  theory of a list cut into named sections; `IniLines` gives the syntax of a line, `IniText` the bytes, encodings and
  newlines, `IniFile` the editor with its loops and its files, and `IniRuns` whole runs of it on one file.
* **The mailbox export** (`InterfaceAccount.cpp`): folder names become directory names (`ExportNames`), a recursive
  walk copies every message (`Export`), `ExportTheorems` says what the walk leaves behind, `ExportPaths` where its paths
  lead once they are resolved, and `ExportObstruction` when a file system can hold it.
* **Accounts behind COM handles** (`InterfaceAccount.cpp`, `InterfaceAccounts.cpp`, `COMCollection.h`): the objects and
  their methods (`Accounts`, with the levels in `Rights`), every run of calls by any number of sessions, each with its own
  collections and handles (`AccountRuns`), whose password such a run can
  leave in a server administrator's row (`AccountPasswords`), what becomes of levels (`AccountLevels`), and what collections
  show (`AccountCollections`).
  `PasswordHistory` is the reuse history of passwords.
* **Logons and the audit actor** (`COMAuthentication.cpp`): `Sessions`, and `Audit` for interleaved calls on a thread pool.
* **The budgeted MIME traversal** (`fuzz_mime_common.cpp`): `MimeWalk`.
* **The schema conversion generator** (`Parser.cs`): `SchemaConversion` generates, `SchemaReading` reads the
  generated statements word by word, and `SchemaEffects` runs them.
* **The upgrade script generator** (`ScriptGenerator.cs`) and **path joining** (`Paths.cs`): `ScriptGeneration`, `Paths`.

Code that works by changing things is modelled by classes and methods with loops; each is proved against a function
of the old state, and the theorems are about those functions. `Text` holds strings, case maps and trimming. Case
folding is any character map that fixes white space and the ASCII characters that are not letters (`CaseMap`), so results
hold for upper- and for lower-casing in any locale with that property; the server's trimming class is a parameter too.

Where a promise turns out to be false of the code, the code is kept and the exact condition is proved:

* a write changes what is read under another name only in these ways, each with its exact condition (`OtherNamesKept`): the
  blank line put before a new section is read under the empty key of the section that was last; and a key that is not
  clean (not trimmed, with `=` in it, or starting like a comment or a bracket) writes a line that is read under another
  name, or as a header that hides a later section or cuts off a blank line (`TakenName`, `HiddenName`). A non-empty name is
  so taken only if it had no value; an empty key can lose the one it had (`EmptyKeyKept`, `EmptyKeyLeak`,
  `EmptyKeyTaken`);
* a written value is read back exactly if its key is clean (`WriteReadsBack`), and repeating a write leaves the file
  unchanged exactly then; otherwise every repeat adds a line (`RepeatedWrites`, `WriteTwice`);
* a file reads back as it was written exactly when it has a line, every line is free of line feeds and trailing carriage
  returns, and an unmarked file does not start with the bytes of an encoding mark (`RoundTrip`, `FalseMark`);
* sessions that are not server administrators can harm the row of one exactly when one of them has a stale object, under a
  handle or in a collection (`HarmIffStaleHeld`); they get one when a server administrator stores a promotion beside their
  older copy, or when a server administrator's session that has one is logged on as somebody else (`StaleIffExposed`,
  `PromotionUndone`, `LoweredThenSaved`);
* the password in a server administrator's row comes from the session that saved it or from a row, never from another
  session's memory, but that session may have chosen it before it was server administrator (`AdminPasswordOrigin`,
  `EarlierChoiceStored`);
* a collection never holds an object twice, but a save can show a row twice, exactly when the object is in no collection
  yet, has a row, and the collection shows that row already (`RunShowsRowsOnceIff`, `OrphanShownTwice`);
* the anonymous logon grants what every password logon is refused exactly when no password is set and a second factor is
  enrolled whose secret cannot be opened (`AnonymousBypass`);
* distinct target paths are not enough for an export to succeed: on a file system it can, exactly when no folder with mail
  is named like a message file of its parent and nothing on disk is in the way (`ExportFits`, `NeverFits`);
* path parts can be regrouped at will except when the second group starts with a lone colon and a part that starts with a
  colon, because the .NET Framework takes any character before a colon for a drive (`AppendAssociative`,
  `CombinedConcat`, `FalseDriveExists`);
* the conversion script, read as text, runs exactly when every table and every nvarchar and ntext column it names is there and no column is
  named like an ntext column plus `_tmp` (`ScriptKeepsData`);
* a generated script is on file as generated exactly when all of it is ASCII (`AsciiKeeps`).

`dafny verify dfyconfig.toml` checks the project.

## Model

| member | source | states |
|---|---|---|
| IniLines.KeySurvives | hmailserver/tools/ConfigureInstallation/IniFile.cs:141-148 | a written `key=value` line parses back to its key if and only if the key is trimmed, has no `=` and does not start like a comment or a bracket |
| IniLines.KeyLineShape | hmailserver/tools/ConfigureInstallation/IniFile.cs:131-148 | such a line is never a header or blank, and its value reads back trimmed and without one pair of quotes |
| IniLines.NormalQuoted | hmailserver/tools/ConfigureInstallation/IniFile.cs:131-135 | a value in a pair of quotes reads as what is inside, white space around the quotes aside |
| IniLines.NormalPlain | hmailserver/tools/ConfigureInstallation/IniFile.cs:131-135 | any other value loses only the white space around it |
| IniLines.NormalBlank | hmailserver/tools/ConfigureInstallation/IniFile.cs:131-135 | white space alone is no value |
| Text.AsciiWhite | hmailserver/tools/ConfigureInstallation/IniFile.cs:131-145 | of the ASCII characters, white space is the blank and the five from tab to carriage return |
| IniLines.CommentUnnamed | hmailserver/tools/ConfigureInstallation/IniFile.cs:141-148 | a line that starts with a semicolon, a number sign or a bracket assigns nothing |
| IniLines.ReadsAssignment | hmailserver/tools/ConfigureInstallation/IniFile.cs:111-148 | a header in brackets and a line `key = value`, spelled out with white space, read as that value under that name |
| IniLines.OpensIff | hmailserver/tools/ConfigureInstallation/IniFile.cs:150-159 | the editor's case-blind comparison with `[section]` is exactly the header test the theory uses |
| IniLines.AssignsIff | hmailserver/tools/ConfigureInstallation/IniFile.cs:66-66 | the editor's comparison of keys finds exactly the lines of the shape white space, key, white space, `=`, value, with no comment sign or bracket first and the key equal case aside |
| Sections.ReadBack | hmailserver/tools/ConfigureInstallation/IniFile.cs:49-96 | after a write, in any list, the entry found under the name is the one written |
| Sections.SetTwice | hmailserver/tools/ConfigureInstallation/IniFile.cs:83-96 | repeating a write whose entry reads back under its key changes nothing; `RepeatedWrites` has the other keys |
| Sections.SetIsMinimal | hmailserver/tools/ConfigureInstallation/IniFile.cs:49-96 | any write replaces one entry, or inserts one in its section just before the section's trailing blanks, or appends an optional blank, a header and the entry; all else keeps text and order |
| Sections.SetFrame | hmailserver/tools/ConfigureInstallation/IniFile.cs:49-96 | a write changes what is found under another name if and only if it leaks its blank line, whatever duplicates the list holds |
| Sections.DropKeyFrame | hmailserver/tools/ConfigureInstallation/IniFile.cs:73-81 | deleting a key changes no other name |
| Sections.SetTakes | hmailserver/tools/ConfigureInstallation/IniFile.cs:49-96 | a write of an entry, whatever its key, changes what is found under a name, the empty ones included, if and only if the entry is read under it and nothing before its place is, or its blank line leaks |
| Sections.SetHides | hmailserver/tools/ConfigureInstallation/IniFile.cs:49-96 | a write of an entry that is itself a header changes what is found under a name, the empty ones included, exactly as it hides a later section, cuts off the closing blanks or leaks its blank line |
| Sections.DropSectionFrame | hmailserver/tools/ConfigureInstallation/IniFile.cs:38-47 | deleting a section changes the body of no other section |
| Sections.Frame | hmailserver/tools/ConfigureInstallation/IniFile.cs:27-98 | no edit changes any other name with a non-empty key |
| Sections.StaysWellFormed | hmailserver/tools/ConfigureInstallation/IniFile.cs:27-98 | edits keep section names unique and keys unique within sections |
| Sections.Gone | hmailserver/tools/ConfigureInstallation/IniFile.cs:38-81 | with unique names, a deleted key or section is gone |
| Sections.RunRefinesMap | hmailserver/tools/ConfigureInstallation/IniFile.cs:27-98 | over any sequence of writes and deletions the list refines a map: the latest edit of a name decides what is found |
| IniLines.WriteReadsBack | hmailserver/tools/ConfigureInstallation/IniFile.cs:111-139 | whatever the key and the file, a value written is read back trimmed and unquoted if the key is clean, and never if not |
| IniLines.OtherNamesKept | hmailserver/tools/ConfigureInstallation/IniFile.cs:27-139 | whatever the key and the file, what is read under every other section and key, the empty key included, is as before except in four exact cases; none of them but the leak arises for a clean key, and a non-empty name is taken only if it had no value |
| IniLines.WriteDecides | hmailserver/tools/ConfigureInstallation/IniFile.cs:49-139 | any write decides the value of every name, the one it is for included |
| IniLines.TakenName | hmailserver/tools/ConfigureInstallation/IniFile.cs:141-148 | every key with `=` in it is read as the key before the `=` |
| IniLines.HiddenName | hmailserver/tools/ConfigureInstallation/IniFile.cs:150-159 | a key and value that make a header hide a later section of that name |
| IniLines.EmptyKeyKept | hmailserver/tools/ConfigureInstallation/IniFile.cs:49-139 | through any write, whatever its key, the empty key of a section keeps its value if and only if no blank line leaks to it, no header cuts its blank line off, a line that takes it reads as that blank line did, and a header that hides the section leaves the same value |
| IniLines.EmptyKeyTaken | hmailserver/tools/ConfigureInstallation/IniFile.cs:83-94 | a written line that is read as a comment takes the empty key from the blank line that had it |
| IniLines.RepeatedWrites | hmailserver/tools/ConfigureInstallation/IniFile.cs:49-96 | writing the same any number of times leaves the lines of the first write if the key is clean, and otherwise adds a line each time |
| IniLines.WriteIsMinimal | hmailserver/tools/ConfigureInstallation/IniFile.cs:49-96 | every write, whatever its key, replaces the first line of its section that has the key, or inserts one before the white lines that close the section, or appends an empty line if the last is not white, the header in brackets and the line |
| IniLines.EmptyKeyLeak | hmailserver/tools/ConfigureInstallation/IniFile.cs:54-57 | every write of a new section leaks into a file of one section and one key |
| IniText.SplitText | hmailserver/tools/ConfigureInstallation/IniFile.cs:193-208 | splitting a written text and stripping carriage returns yields the lines and one empty part |
| IniText.ReadsPlain | hmailserver/tools/ConfigureInstallation/IniFile.cs:193-202 | whatever is read consists of lines without line feeds or trailing carriage returns |
| IniText.LinesRead | hmailserver/tools/ConfigureInstallation/IniFile.cs:190-202 | from any text, whatever its newlines, the lines read are the stretches between line feeds, in order, without the carriage returns that close them; the last one counts if something is left of it |
| IniText.StretchesUnique | hmailserver/tools/ConfigureInstallation/IniFile.cs:193-193 | those stretches are the only ones |
| IniText.UnendedLine | hmailserver/tools/ConfigureInstallation/IniFile.cs:193-202 | a text that ends without a newline has its last line all the same |
| IniText.StyleRead | hmailserver/tools/ConfigureInstallation/IniFile.cs:190-191 | the style is a bare line feed if and only if there is a line feed and none follows a carriage return |
| IniText.MarksRead | hmailserver/tools/ConfigureInstallation/IniFile.cs:172-188 | FF FE and EF BB BF are the marks, the text starts behind them, and any other file is read by the code page |
| IniText.NewlineKept | hmailserver/tools/ConfigureInstallation/IniFile.cs:190-191 | the newline style of a written text is detected again |
| IniText.ReadWrite | hmailserver/tools/ConfigureInstallation/IniFile.cs:172-213 | reading a written file returns the document, with one empty line in place of none |
| IniText.RoundTrip | hmailserver/tools/ConfigureInstallation/IniFile.cs:172-213 | reading a written file returns the same lines, newline style and encoding if and only if there is a line, all lines are plain and an unmarked file does not look marked |
| IniText.FalseMark | hmailserver/tools/ConfigureInstallation/IniFile.cs:172-188 | with a code page, every unmarked file whose first line starts with the characters of the bytes FF FE reads as UTF-16 |
| IniFile.Scan | hmailserver/tools/ConfigureInstallation/IniFile.cs:64-71 | the search loop returns the first line that passes the test |
| IniFile.ProfileStore.FindSection | hmailserver/tools/ConfigureInstallation/IniFile.cs:150-159 | the first line that opens the section, or -1 |
| IniFile.ProfileStore.SectionEnd | hmailserver/tools/ConfigureInstallation/IniFile.cs:161-170 | the first header after the section's own, or the end |
| IniFile.ProfileStore.FindKey | hmailserver/tools/ConfigureInstallation/IniFile.cs:63-71 | the first line of the section that assigns the key, or -1 |
| IniFile.ProfileStore.InsertionPoint | hmailserver/tools/ConfigureInstallation/IniFile.cs:89-93 | the line before the blank lines that close the section |
| IniFile.ProfileStore.ParseValue | hmailserver/tools/ConfigureInstallation/IniFile.cs:131-135 | the text after the first `=`, trimmed, without one pair of quotes |
| IniFile.ProfileStore.EditSection | hmailserver/tools/ConfigureInstallation/IniFile.cs:62-94 | the index edits of the source are exactly the section edit of the theory |
| IniFile.ProfileStore.EditLines | hmailserver/tools/ConfigureInstallation/IniFile.cs:36-94 | all branches, including those that write nothing |
| IniFile.ProfileStore.WritePrivateProfileString | hmailserver/tools/ConfigureInstallation/IniFile.cs:27-98 | the named file becomes the file after the request, every other file is untouched, and no section means no effect |
| IniFile.ProfileStore.GetValue | hmailserver/tools/ConfigureInstallation/IniFile.cs:111-139 | the value of the key in the file as read, or the default |
| IniFile.ProfileStore.GetPrivateProfileString | hmailserver/tools/ConfigureInstallation/IniFile.cs:100-109 | the longest prefix of the value that leaves room for a terminator |
| IniRuns.NextRead | hmailserver/tools/ConfigureInstallation/IniFile.cs:27-213 | the next reader of the file sees the edited lines, in the same encoding and newline style |
| IniRuns.WriteTwice | hmailserver/tools/ConfigureInstallation/IniFile.cs:27-213 | repeating a write leaves the bytes of the file unchanged if and only if its key is clean; otherwise it adds a line |
| IniRuns.FileRefinesMap | hmailserver/tools/ConfigureInstallation/IniFile.cs:27-213 | over any sequence of requests the file on disk refines a map, stays well-formed and keeps its encoding and newline style |
| IniRuns.ReaderSeesLatest | hmailserver/tools/ConfigureInstallation/IniFile.cs:27-213 | after any run a reader gets the trimmed, unquoted value of the latest request about the name, or nothing if it was a deletion |
| IniRuns.MarkedFileDurable | hmailserver/tools/ConfigureInstallation/IniFile.cs:172-213 | a file with an encoding mark keeps it over every run that writes characters the encoding has, and no document of the run is misread |
| IniRuns.NewFileDurable | hmailserver/tools/ConfigureInstallation/IniFile.cs:27-213 | a file the editor creates itself never looks marked, over every run that writes characters the encoding has |
| IniRuns.NewFileIsMap | hmailserver/tools/ConfigureInstallation/IniFile.cs:27-213 | from no file at all, any run of requests within the characters of the encoding makes an unmarked file with Windows newlines that reads as the map the requests describe |
| IniRuns.CodePageSuffices | hmailserver/tools/ConfigureInstallation/IniFile.cs:172-213 | a code page that replaces the characters it lacks meets what these results ask of an encoder |
| ExportNames.Sanitize | hmailserver/source/Server/COM/InterfaceAccount.cpp:349-380 | replacing each forbidden character, trimming and looking for a non-dot computes the sanitised name |
| ExportNames.SanitizedIsSegment | hmailserver/source/Server/COM/InterfaceAccount.cpp:349-380 | a sanitised name has none of the nine characters that Windows refuses, and something else than dots |
| ExportNames.SanitizedKeepsRest | hmailserver/source/Server/COM/InterfaceAccount.cpp:349-358 | exactly those nine become underscores, and every other character stays |
| ExportNames.SanitizedDots | hmailserver/source/Server/COM/InterfaceAccount.cpp:360-377 | a name of nothing but dots, or of nothing, becomes an underscore |
| ExportNames.SanitizedFixed | hmailserver/source/Server/COM/InterfaceAccount.cpp:349-380 | sanitising is idempotent, and is the identity exactly on trimmed legal names |
| ExportNames.CandidatesDiffer | hmailserver/source/Server/COM/InterfaceAccount.cpp:424-431 | candidates for different suffixes differ after lowering, and from the name itself |
| ExportNames.Pigeonhole | hmailserver/source/Server/COM/InterfaceAccount.cpp:422-437 | clashing candidates are as many different used names |
| ExportNames.FreeFrom | hmailserver/source/Server/COM/InterfaceAccount.cpp:424-436 | there is a least free suffix |
| ExportNames.PickName | hmailserver/source/Server/COM/InterfaceAccount.cpp:422-437 | the unbounded suffix search ends, within as many tries as there are used names, with the least free suffix |
| ExportNames.UniqueNameIsSegment | hmailserver/source/Server/COM/InterfaceAccount.cpp:418-441 | suffixed names are legal too |
| Export.PerformConcat | hmailserver/source/Server/COM/InterfaceAccount.cpp:443-475 | copying a list and then another is copying their concatenation, stopping at the first failure |
| Export.Exporter.CopyFile | hmailserver/source/Server/COM/InterfaceAccount.cpp:459-469 | one copy, counted if it succeeds and recorded as the failure if not |
| Export.Exporter.ExportMessagesOf | hmailserver/source/Server/COM/InterfaceAccount.cpp:443-471 | the message loop performs the folder's copies |
| Export.Exporter.ExportFolders | hmailserver/source/Server/COM/InterfaceAccount.cpp:386-478 | the recursive walk performs exactly the depth-first plan until a copy fails |
| Export.Exporter.ExportMessages | hmailserver/source/Server/COM/InterfaceAccount.cpp:481-526 | refused without server administrator or directory; reports the count only if everything was copied, else zero |
| ExportTheorems.PlanIsComplete | hmailserver/source/Server/COM/InterfaceAccount.cpp:386-478 | the plan copies every message of the tree exactly once, in depth-first order |
| ExportTheorems.PlanIsContained | hmailserver/source/Server/COM/InterfaceAccount.cpp:418-457 | every target is the directory, at least one name that Windows accepts and that is not only dots, and a message file name |
| ExportPaths.PlanLands | hmailserver/source/Server/COM/InterfaceAccount.cpp:403-457 | resolved part by part, with both separators and with dots that climb, the target of each message is the resolved directory, one name for each level of its folder, and its UID with `.eml` |
| Text.DecimalNumber | hmailserver/source/Server/COM/InterfaceAccount.cpp:454-457 | the digits of a UID stand for it, without a leading zero |
| ExportPaths.TwinNames | hmailserver/source/Server/COM/InterfaceAccount.cpp:418-457 | two folders with one name get that name and the name with ` (2)` |
| ExportTheorems.PlanNoClash | hmailserver/source/Server/COM/InterfaceAccount.cpp:403-457 | with unique UIDs per folder no two messages of the tree get the same file, case aside |
| ExportTheorems.NoClashIffUniqueUids | hmailserver/source/Server/COM/InterfaceAccount.cpp:403-457 | and only then |
| ExportTheorems.OneNameEach | hmailserver/source/Server/COM/InterfaceAccount.cpp:410-439 | each folder of a level adds exactly one name to the names used |
| ExportTheorems.PlanConcat | hmailserver/source/Server/COM/InterfaceAccount.cpp:403-439 | the walk goes on after some folders of a level with exactly those names used |
| ExportTheorems.PerformIsPrefix | hmailserver/source/Server/COM/InterfaceAccount.cpp:443-475 | the files, the counter and the attempts are those of the prefix before the first failing copy |
| ExportTheorems.CopiedHolds | hmailserver/source/Server/COM/InterfaceAccount.cpp:459-469 | copies that do not clash leave as many files as copies, each with its own message, and touch no other file |
| ExportTheorems.ExportOutcome | hmailserver/source/Server/COM/InterfaceAccount.cpp:382-526 | for every tree and every pattern of failures: count, files and attempts are the exact depth-first prefix, and on success the whole tree |
| ExportObstruction.LevelClear | hmailserver/source/Server/COM/InterfaceAccount.cpp:386-478 | at every level, no message file stands in the way of another message if and only if no folder with mail is named like a message file of its parent |
| ExportObstruction.ExportFits | hmailserver/source/Server/COM/InterfaceAccount.cpp:441-473 | outcomes in which a blocked copy fails can all be successes if and only if no folder with mail is named like a message file of its parent and nothing on disk is in the way |
| ExportObstruction.NeverFits | hmailserver/source/Server/COM/InterfaceAccount.cpp:441-473 | every run on a tree with a folder beside a message whose file has its name ends with a failed copy, whatever is on disk |
| MimeWalk.TakeConcat | fuzz/harness/fuzz_mime_common.cpp:180-191 | a budget threaded through two lists takes a prefix of their concatenation |
| MimeWalk.VisitsStep | fuzz/harness/fuzz_mime_common.cpp:183-191 | the budget is threaded through siblings |
| MimeWalk.VisitsNode | fuzz/harness/fuzz_mime_common.cpp:126-193 | a body, then its encapsulated message, then its parts, with what is left of the budget |
| MimeWalk.VisitsBound | fuzz/harness/fuzz_mime_common.cpp:121-194 | the total never exceeds the larger of 256 and the starting count, and below 256 the whole tree down to depth 8 was visited |
| MimeWalk.Body.FindNextPart | fuzz/harness/fuzz_mime_common.cpp:180-191 | each body moves its own iterator |
| MimeWalk.Traversal.ExerciseBody | fuzz/harness/fuzz_mime_common.cpp:121-194 | visits exactly the first 256 bodies, less those already counted, of the preorder of the tree cut below depth 8 |
| MimeWalk.Traversal.ExerciseParts | fuzz/harness/fuzz_mime_common.cpp:180-191 | the loop over the parts, undisturbed by the iterators of the bodies below |
| Accounts.AccountHandle.PutAdminLevel | hmailserver/source/Server/COM/InterfaceAccount.cpp:1158-1250 | the guard, the switch over any integer and the refusal of unknown levels |
| AccountLevels.ReplyTells | hmailserver/source/Server/COM/InterfaceAccount.cpp:1158-1250 | done means that the level is the one asked for; any other reply leaves it; unknown levels are refused as such |
| AccountLevels.AdministratorSetsLevel | hmailserver/source/Server/COM/InterfaceAccount.cpp:1203-1242 | a domain administrator's request for a lower level on an account that is no server administrator is carried out, and any known level for a server administrator |
| AccountLevels.LevelsKept | hmailserver/source/Server/COM/InterfaceAccount.cpp:1203-1242 | a call by a session that administers nothing changes no level in memory |
| AccountLevels.ServerAdministratorsKept | hmailserver/source/Server/COM/InterfaceAccount.cpp:1165-1242 | a call by a session that is not server administrator makes no server administrator in memory and unmakes none |
| AccountLevels.UnprivilegedRunKeepsLevels | hmailserver/source/Server/COM/InterfaceAccount.cpp:1158-1250 | over every run in which nobody calls while being a domain or server administrator, objects keep their levels and no row gets a level that was not there |
| AccountLevels.NobodyPromotesHimself | hmailserver/source/Server/COM/InterfaceAccount.cpp:1158-1250 | from objects that agree with their rows, such a run changes no row's level |
| Accounts.AccountHandle.PutPassword | hmailserver/source/Server/COM/InterfaceAccount.cpp:528-578 | sets the password in memory if the policy and the history accept it, and then records the old hash |
| PasswordHistory.History.IsReuse | hmailserver/source/Server/Common/Util/PasswordHistory.cpp:27-86 | a password is reused if it fits the current hash or one of the latest recorded ones, up to the depth |
| PasswordHistory.History.Record | hmailserver/source/Server/Common/Util/PasswordHistory.cpp:88-153 | the old hash goes in front of the history of its account, which is cut to the depth; other accounts keep theirs |
| PasswordHistory.BookHoldsEnd | hmailserver/source/Server/Common/Util/PasswordHistory.cpp:88-153 | over every run of changes the history is the end of the chain of accepted hashes |
| PasswordHistory.RefusedIffRecent | hmailserver/source/Server/Common/Util/PasswordHistory.cpp:27-153 | over every run of changes of a stored account a password is refused for reuse if and only if it fits one of the last depth + 1 accepted hashes |
| PasswordHistory.HistoryOff | hmailserver/source/Server/Common/Util/PasswordHistory.cpp:27-101 | without a depth nothing is refused or recorded; unsaved accounts and empty passwords have no history |
| Accounts.AccountHandle.Save | hmailserver/source/Server/COM/InterfaceAccount.cpp:601-637 | refuses an in-memory server administrator to others, else stores the row and joins the collection |
| Accounts.AccountHandle.AddToParentCollection | hmailserver/source/Server/COM/COMCollection.h:23-30 | appends the object once |
| Accounts.Store.SaveObject | hmailserver/source/Server/Common/Persistence/PersistentAccount.cpp:394-561 | an update needs its row, an insert takes a new identity even when it is then rolled back or orphaned |
| AccountLevels.SaveStores | hmailserver/source/Server/Common/Persistence/PersistentAccount.cpp:394-561 | a save that is allowed and stored writes the level and password of its object to its row or a new one, and nothing else |
| AccountLevels.RowsStay | hmailserver/source/Server/Common/Persistence/PersistentAccount.cpp:394-561 | no call takes a row away |
| AccountLevels.RejectedChangesNothing | hmailserver/source/Server/Common/Persistence/PersistentAccount.cpp:394-561 | a rejected save, and any failed update, changes nothing |
| AccountLevels.RolledBackIsLost | hmailserver/source/Server/Common/Persistence/PersistentAccount.cpp:513-547 | after an insert that was rolled back no save of the object succeeds |
| Accounts.AccountsInterface.Add | hmailserver/source/Server/COM/InterfaceAccounts.cpp:43-76 | a fresh object outside the collection, for domain administrators, under a handle of the same session |
| Accounts.AccountsInterface.GetItem | hmailserver/source/Server/COM/InterfaceAccounts.cpp:99-126 | a handle of the same session that shares the collection's object |
| Accounts.AccountsInterface.GetItemByDbId | hmailserver/source/Server/COM/InterfaceAccounts.cpp:144-171 | finds the object with that row, or none |
| Accounts.AccountsInterface.Refresh | hmailserver/source/Server/COM/InterfaceAccounts.cpp:128-142 | replaces the contents by fresh objects that agree with the rows |
| AccountRuns.StaysValid | hmailserver/source/Server/COM/InterfaceAccount.cpp:1203-1242 | every call keeps every stored and in-memory level one of the three |
| AccountRuns.StaleIffExposed | hmailserver/source/Server/COM/InterfaceAccount.cpp:1158-1250 | a stale object comes within reach of a session that is not server administrator exactly when one is promoted beside its copy, lowered in shared memory, or held by a server administrator's session that is logged on as somebody else |
| AccountRuns.OrdinaryKeeps | hmailserver/source/Server/COM/InterfaceAccount.cpp:601-637 | without stale objects in their reach, no call of a session that is not server administrator touches a server administrator's row or makes one |
| AccountRuns.OrdinaryRunKeeps | hmailserver/source/Server/COM/InterfaceAccount.cpp:601-637 | over every run in which no session calls while it is server administrator, from a state without stale objects in their reach, rows of server administrators keep level and password, none is made, and levels stay valid |
| AccountRuns.MixedRunKeeps | hmailserver/source/Server/COM/InterfaceAccount.cpp:601-637 | the same for each such call of any interleaved run in which no call exposes an account |
| AccountRuns.HarmIffStaleHandle | hmailserver/source/Server/COM/InterfaceAccount.cpp:608-619 | a session that is not server administrator can harm the row of one in a single call if and only if it has a handle on a stale object |
| AccountRuns.HarmIffStaleHeld | hmailserver/source/Server/COM/InterfaceAccount.cpp:601-637 | some run in which no session calls while it is server administrator harms the row of one if and only if a session that is not has a stale object, under a handle or in a collection |
| AccountRuns.PromotionUndone | hmailserver/source/Server/COM/InterfaceAccount.cpp:608-623 | a promotion stored while another session holds an older copy is undone by a Save of that copy |
| AccountRuns.LoweredThenSaved | hmailserver/source/Server/COM/InterfaceAccount.cpp:601-637 | an account lowered in memory by a server administrator is stored so once the session is logged on as somebody else |
| AccountRuns.SessionsShareNothing | hmailserver/source/Server/COM/InterfaceAccounts.cpp:43-201 | over every run, no object is in reach of two sessions |
| AccountRuns.MemoryNotExposed | hmailserver/source/Server/COM/InterfaceAccount.cpp:1158-1250 | so a level set in memory exposes nothing by itself |
| AccountPasswords.AdminRowOrigin | hmailserver/source/Server/COM/InterfaceAccount.cpp:608-623 | over every run, a server administrator's row is as at the start or was stored by a server administrator's Save |
| AccountPasswords.PasswordOrigin | hmailserver/source/Server/COM/InterfaceAccount.cpp:528-578 | the password an object holds in memory is the latest choice through any handle, or what the object was made with |
| AccountPasswords.MadeWith | hmailserver/source/Server/COM/InterfaceAccounts.cpp:43-142 | an object is made with the password of its row, or, for a new account, without one |
| AccountPasswords.AdminPasswordOrigin | hmailserver/source/Server/COM/InterfaceAccount.cpp:528-637 | over every run, the password in a server administrator's row is the one at the start, or was saved by a server administrator's session that chose it itself, under whatever logon, or had it from the row the object was made of |
| AccountPasswords.EarlierChoiceStored | hmailserver/source/Server/COM/InterfaceAccount.cpp:528-637 | a password chosen before the session was server administrator is stored once the session is one |
| AccountCollections.StaysMember | hmailserver/source/Server/COM/COMCollection.h:17-30 | every call keeps objects unique across collections and unattached objects alone |
| AccountCollections.RunKeepsMembership | hmailserver/source/Server/COM/COMCollection.h:17-30 | over every run no collection holds an object twice |
| AccountCollections.RowsOnceIff | hmailserver/source/Server/COM/COMCollection.h:17-30 | from a state in which collections show rows once, a call leaves it so if and only if it is not a save that joins a collection which shows its row already |
| AccountCollections.RunShowsRowsOnceIff | hmailserver/source/Server/COM/COMCollection.h:17-30 | no state of a run shows a row twice if and only if no call of it is such a save |
| AccountCollections.RunShowsRowsOnce | hmailserver/source/Server/COM/InterfaceAccounts.cpp:43-201 | over every run without a half-failed insert no collection shows a row twice |
| AccountCollections.OrphanShownTwice | hmailserver/source/Server/Common/Persistence/PersistentAccount.cpp:513-547 | an insert that fails half-way, a refresh and a second save show the row twice |
| Sessions.ComAuthentication.AuthenticateAdministrator | hmailserver/source/Server/COM/COMAuthentication.cpp:97-164 | grants the built-in identity exactly for a redeemed token, or an accepted password with its second factor met |
| Sessions.ComAuthentication.Authenticate | hmailserver/source/Server/COM/COMAuthentication.cpp:35-95 | the identity left behind is a function of this call alone; a failed call leaves none |
| Sessions.ComAuthentication.AttemptAnonymous | hmailserver/source/Server/COM/COMAuthentication.cpp:166-180 | grants the built-in identity exactly when no password is set and no second-factor secret can be opened, enrolled or not; else changes nothing |
| Sessions.ComAuthentication.GetIsServerAdmin | hmailserver/source/Server/COM/COMAuthentication.cpp:242-251 | answers from the session, for the built-in administrator and accounts of level 2, and installs its actor on the thread |
| Sessions.ComAuthentication.GetIsDomainAdmin | hmailserver/source/Server/COM/COMAuthentication.cpp:200-210 | likewise, for level 1 too |
| Sessions.LatestDecides | hmailserver/source/Server/COM/COMAuthentication.cpp:35-180 | over any sequence of attempts the identity is the result of the latest deciding one |
| Sessions.BuiltInIff | hmailserver/source/Server/COM/COMAuthentication.cpp:35-180 | a session is the built-in administrator's if and only if its latest deciding attempt was anonymous without password and secret, a redeemed token, or the right password with a verified code for any secret that is enrolled |
| Sessions.PasswordLogonIff | hmailserver/source/Server/COM/COMAuthentication.cpp:97-164 | after any attempts, a password logon makes the session the administrator's if and only if the password is accepted, a secret that opens was met with a verified code, and an enrolled secret opens; else it is nobody's |
| Sessions.TokenLogonIff | hmailserver/source/Server/COM/COMAuthentication.cpp:97-108 | after any attempts, a token logon turns on redeeming the token alone |
| Sessions.UserLogonIff | hmailserver/source/Server/COM/COMAuthentication.cpp:35-95 | after any attempts, a mailbox logon with a code is granted if and only if the account's check accepts the password with its own secret's verdict on that code; without, as the validator says; never as the administrator |
| Sessions.AnonymousBypass | hmailserver/source/Server/COM/COMAuthentication.cpp:97-180 | the anonymous attempt is granted while every password logon is refused if and only if no password is set and a second factor is enrolled whose secret cannot be opened |
| Audit.StaysAttributed | hmailserver/source/Server/COM/COMAuthentication.cpp:200-251 | in every reachable state each guarded entry names the actor of its own call's guard |
| Audit.GuardedWriteAttributed | hmailserver/source/Server/COM/COMAuthentication.cpp:200-251 | in every interleaving a write after a guard of the same call is attributed, by address and kind, to the session's identity when it asked |
| Audit.UnguardedWriteInherits | hmailserver/source/Server/COM/COMAuthentication.cpp:242-251 | a write before any guard is attributed to whoever asked last on that thread |
| SchemaConversion.Parser.ColumnTexts | hmailserver/tools/DatabaseUnicodeConversion/Parser.cs:109-130 | the text of the commands for a column |
| SchemaConversion.Parser.ParseLine | hmailserver/tools/DatabaseUnicodeConversion/Parser.cs:78-132 | one line: header, column or neither |
| SchemaConversion.Parser.ParseCreateTable | hmailserver/tools/DatabaseUnicodeConversion/Parser.cs:71-133 | the loop over the lines, carrying the table name |
| SchemaConversion.Parser.ExtractCommand | hmailserver/tools/DatabaseUnicodeConversion/Parser.cs:51-69 | the dispatch on the command's first words |
| SchemaConversion.Parser.Run | hmailserver/tools/DatabaseUnicodeConversion/Parser.cs:18-34 | the texts of the whole script, in order, or nothing where it throws |
| SchemaConversion.TableNameIs | hmailserver/tools/DatabaseUnicodeConversion/Parser.cs:80-90 | the table is the name up to the next blank or line end, and the generator throws if one of the two does not follow at all |
| SchemaConversion.ColumnIs | hmailserver/tools/DatabaseUnicodeConversion/Parser.cs:76-107 | a column is the first two words of an indented line |
| SchemaConversion.SplitOnHead | hmailserver/tools/DatabaseUnicodeConversion/Parser.cs:28-30 | the script is cut at its first separator, and so on behind it |
| SchemaConversion.SplitOnNone | hmailserver/tools/DatabaseUnicodeConversion/Parser.cs:28-30 | without a separator it is one command |
| SchemaConversion.OtherCommands | hmailserver/tools/DatabaseUnicodeConversion/Parser.cs:51-69 | index and alter-table commands are passed on unchanged, all else is left out |
| SchemaConversion.TableFirst | hmailserver/tools/DatabaseUnicodeConversion/Parser.cs:92-97 | each table starts with the procedure that drops what depends on it |
| SchemaReading.ReadsBack | hmailserver/tools/DatabaseUnicodeConversion/Parser.cs:92-129 | every emitted statement, read word by word, says the command that was meant: which column is set, which it is set from, which name is old and which new |
| SchemaReading.ScriptReadable | hmailserver/tools/DatabaseUnicodeConversion/Parser.cs:18-133 | so does the whole emitted script, for names without blanks, dots and quotes |
| SchemaEffects.TextColumn | hmailserver/tools/DatabaseUnicodeConversion/Parser.cs:116-129 | add, copy, drop and rename leave the column with its name and data and type ntext |
| SchemaEffects.ColumnConverted | hmailserver/tools/DatabaseUnicodeConversion/Parser.cs:100-130 | a column's commands run if and only if it is there and its temporary name is free; then all names and data stay and only its type changes |
| SchemaEffects.LinesConverted | hmailserver/tools/DatabaseUnicodeConversion/Parser.cs:71-133 | the same for all lines of a table, with the final type of every column |
| SchemaEffects.CommandConverted | hmailserver/tools/DatabaseUnicodeConversion/Parser.cs:51-133 | the same for any command of the script |
| SchemaEffects.ScriptKeepsData | hmailserver/tools/DatabaseUnicodeConversion/Parser.cs:18-133 | the emitted texts, read word by word, run if and only if every table is ready for them, and then every table keeps its columns and data |
| SchemaEffects.CommandsKeepData | hmailserver/tools/DatabaseUnicodeConversion/Parser.cs:18-133 | the same of the commands that are meant, whatever the names |
| ScriptGeneration.AppendFragment | hmailserver/tools/SQLScriptCreator/ScriptGenerator.cs:87-101 | a fragment with its separator; raw SQL trimmed, refused when terminated |
| ScriptGeneration.AppendFragments | hmailserver/tools/SQLScriptCreator/ScriptGenerator.cs:47-103 | one engine's fragments for one statement, and whether there was any SQL |
| ScriptGeneration.AppendStatement | hmailserver/tools/SQLScriptCreator/ScriptGenerator.cs:34-112 | every engine's script grows by its own fragments, or the statement is refused |
| ScriptGeneration.BuildScripts | hmailserver/tools/SQLScriptCreator/ScriptGenerator.cs:33-112 | the interleaved loops yield, per engine, the in-order concatenation of its own fragments |
| ScriptGeneration.Generator.Generate | hmailserver/tools/SQLScriptCreator/ScriptGenerator.cs:25-125 | throws without touching a file exactly when some statement is not covered, else writes each engine's script in ASCII and nothing else |
| ScriptGeneration.AsciiKeeps | hmailserver/tools/SQLScriptCreator/ScriptGenerator.cs:123-123 | a script is on file as it was generated if and only if all of it is ASCII |
| ScriptGeneration.AsciiReplaces | hmailserver/tools/SQLScriptCreator/ScriptGenerator.cs:123-123 | every other character becomes a question mark in its place |
| ScriptGeneration.AllCoveredIff | hmailserver/tools/SQLScriptCreator/ScriptGenerator.cs:96-110 | covered means every statement is |
| ScriptGeneration.CoveredIff | hmailserver/tools/SQLScriptCreator/ScriptGenerator.cs:87-110 | a statement is covered if and only if it is of a known kind, no raw fragment ends with a semicolon, and some engine yields SQL for it |
| ScriptGeneration.ScriptIs | hmailserver/tools/SQLScriptCreator/ScriptGenerator.cs:34-112 | an engine's script is its own fragments for all statements in order, raw SQL trimmed, each followed by the separator |
| ScriptGeneration.PathsDiffer | hmailserver/tools/SQLScriptCreator/ScriptGenerator.cs:114-124 | different engines are written to different files |
| ScriptGeneration.FileIs | hmailserver/tools/SQLScriptCreator/ScriptGenerator.cs:114-119 | the file is called after its engine |
| Paths.Combine | hmailserver/tools/ConfigureInstallation/Paths.cs:22-57 | the loop computes the fold; a null part throws |
| Paths.AppendAssociative | hmailserver/tools/ConfigureInstallation/Paths.cs:34-53 | joining is associative if and only if it does not build a false drive behind something |
| Paths.StartedOver | hmailserver/tools/ConfigureInstallation/Paths.cs:37-42 | parts of which one is rooted do not depend on what precedes them |
| Paths.StartsOver | hmailserver/tools/ConfigureInstallation/Paths.cs:37-42 | a part that starts with either separator or has a colon second discards what precedes it |
| Paths.JoinedOn | hmailserver/tools/ConfigureInstallation/Paths.cs:44-53 | any other part is joined on with one separator, unless a separator or a colon is there |
| Paths.EmptyPartsDrop | hmailserver/tools/ConfigureInstallation/Paths.cs:31-35 | empty parts are units: leaving them all out changes nothing |
| Paths.LooksRooted | hmailserver/tools/ConfigureInstallation/Paths.cs:37-53 | parts of which none is rooted combine to a rooted path if and only if the first two that are not empty are a lone colon and a part that starts with one |
| Paths.CombinedConcat | hmailserver/tools/ConfigureInstallation/Paths.cs:22-57 | combining groups and then joining is combining all, if and only if the first group is all empty, a part of the second is rooted, or the second does not start with such a pair |
| Paths.FalseDriveExists | hmailserver/tools/ConfigureInstallation/Paths.cs:37-53 | such groups exist |

## Left out

- MIME parsing and codecs, IMAP, SMTP, POP3, Sieve, DKIM, SPF and DMARC: the traversal works on a given tree of bodies.
- The accessors that the MIME traversal exercises on each body: they stand as one visit, and the re-parse of an encapsulated message as a given subtree.
- Null arguments to the profile reader: a null section reads as the section with the empty name and a null key as no key.
- The encoders of the runtime: decoding is taken to undo encoding on the texts of an encoding's own characters; a run that writes other characters is covered only as far as its documents survive the encoder.
- Case maps that change the length of a string or touch white space or an ASCII character that is not a letter.
- File system rules of Windows beyond case: reserved device names, trailing dots and blanks.
- File copying, its retries and its error text: each attempt succeeds or fails as an arbitrary oracle says.
- Deleting accounts and messages, Sieve scripts, TOTP enrolment, and all account fields but row, level and password.
- Password policy, hashing, lookup, one-time codes and tokens: parameters of each call.
- The password history over several objects of one row, when its table cannot be read or written, and its expiry clock.
- Save: the store and the collection change in one step, so a Refresh between the two on another thread is not covered.
- COM reference counting, error objects, logging and the text of messages.
- SQL names in brackets: the statements of the conversion script are read for names without blanks, dots and quotes.
- The SQL that conversion commands leave alone: `create index`, `alter table` and the procedure that drops indexes are taken to change no column and no data, and the column type is the word of the line, a trailing comma included.
- The output file of the conversion generator: blank lines between commands and the removal of `---`.
- The SQL generators of the four engines: any function from a statement to fragments, and any list of engines with different names.
- The characters that make `Path.IsPathRooted` throw.
- Remaining COM property getters and setters: thin forwarding with one guard each.
