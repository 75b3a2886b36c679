# Shuttle host list: a Dafny model

This project models the host-list loader of the Raycast "shuttle" extension
(`src/shuttle.tsx`). The extension reads a catalog of SSH-style
connections from `~/.shuttle.json`. The catalog nests arrays of entries
inside objects whose keys name groups. At load time the extension flattens
it into the module-level array `hosts`, one record per leaf entry (an entry
with truthy `name` and `cmd`). Each record carries its group path and three
fields cut out of the command:

- `comment`: the text after the first `#`, trimmed;
- `ip`: the run of `[.\w\d]` characters after the first `@`;
- `user`: the word run between whitespace and an `@`.

The list view then shows each record under a title (its path and name
joined with " / ") and makes it searchable by keywords.

The model follows the code as written, JavaScript semantics included:

- A property read on `null` throws a `TypeError`, and so does indexing a
  failed regular-expression match. Such a throw aborts loading, and the
  records pushed before it stay in `hosts`.
- A truthy `cmd` that is not a string throws as soon as `indexOf` or
  `substring` is called on it.
- `Object.entries` of an array, a string or a number is walked into like an
  object's entries.

Modules:

- `Values`: JSON values as `JSON.parse` builds them, truthiness, property
  reads and `Object.entries`.
- `Text`: `trim`, `indexOf`, `\s`, `\w`, and `join`.
- `Outcomes`: running steps that may throw one after another.
- `Extraction`: the `comment`, `ip` and `user` expressions.
- `Flattening`: what loading computes, stated as values. It lists the places
  where `processItem` stops descending, in pre-order, and the record or
  exception each one yields.
- `Shuttle`: the class `HostList`, whose `hosts` field the methods
  `ProcessList`, `ProcessItem` and `ProcessEntries` extend step by step. Each
  method is proved to append exactly what `Flattening` says and to throw
  exactly where it says.
- `Display`: the title and the keywords of the list view.
- `Scenarios`: worked commands.

### Behaviour worth knowing

Some consequences of the code as written:

- Without a `#`, the comment is the whole command trimmed: `indexOf`
  returns -1 and `substring(0)` keeps everything.
- A command without an `@` throws while its fields are built (see
  `Scenarios.NoAt`), and so does one with no whitespace before its user
  (`Scenarios.UserFirst`). Either exception ends the loading of the catalog.
- The address class `[\.\w\d]` has no hyphen, so an address stops at the
  first `-` (`Scenarios.HyphenatedHost`).
- The user match is the leftmost whitespace, word run and `@`. It need not
  be at the `@` the address comes from.

## Model

| member | source | states |
|---|---|---|
| Shuttle.HostList.constructor | src/shuttle.tsx:12 | `hosts` starts empty |
| Shuttle.HostList.ProcessList | src/shuttle.tsx:14-22 | `hosts` becomes the old array followed by the records of every stop below `list`; the exception returned is the one that stopped the walk; a non-array adds nothing |
| Shuttle.HostList.ProcessItem | src/shuttle.tsx:24-41 | `hosts` grows by exactly the records of the stops below `item`: throws on `null`, pushes one record for a leaf or throws while building it, otherwise walks the entries |
| Shuttle.HostList.ProcessEntries | src/shuttle.tsx:38-40 | processing each entry's value as a list under the path extended by its key, in order, appends exactly those records and stops at the first exception |
| Shuttle.HostList.Load | src/shuttle.tsx:43 | loading succeeds exactly when `Flatten` does, and then appends its list; otherwise it returns `Flatten`'s exception, keeps the records pushed before it, and leaves `hosts` unchanged for a `null` configuration |
| Flattening.Flatten | src/shuttle.tsx:43 | the flattened list has one record per stop, each the record built at that stop; an error is the exception raised at the first stop that throws, every earlier stop having built its record; a `null` configuration throws on reading `hosts` |
| Flattening.ListStops | src/shuttle.tsx:15-17 | a value that is not an array has no stops |
| Flattening.ItemsStops | src/shuttle.tsx:19-21 | (definition) the stops below each item in turn, all under the list's path; `ItemsStep` states how one more item extends them |
| Flattening.ItemStops | src/shuttle.tsx:24-41 | (definition) `null` and a leaf are one stop each; anything else has the stops of its entries; `NullRun`, `LeafStops` and `GroupStops` state the three cases |
| Flattening.MembersStops | src/shuttle.tsx:38-40 | (definition) the stops below each entry's value, taken as a list under the path extended by the entry's key; `MembersStep` states how one more entry extends them |
| Flattening.IsLeaf | src/shuttle.tsx:25 | (definition) the item is not `null` and both its `name` and its `cmd` are truthy |
| Flattening.Emit | src/shuttle.tsx:25-35 | (definition) a `null` stop throws on reading `name`; a leaf stop builds its record with `MakeHost`, or throws |
| Flattening.Run | src/shuttle.tsx:19-21 | (definition) the stops' results collected in order up to the first exception; `ListRecords` and `Outcomes.CollectSteps` state what that yields |
| Flattening.ConfigStops | src/shuttle.tsx:43 | (definition) a missing `hosts` has no stops, otherwise those of `hosts` at the empty path |
| Flattening.ArrayStops | src/shuttle.tsx:19-21 | an array's stops are its items' stops, in order |
| Flattening.LeafOf | src/shuttle.tsx:25-28 | a leaf's stop carries its path and its truthy `name` and `cmd` properties |
| Flattening.LeafStops | src/shuttle.tsx:25-35 | a leaf is a single stop, and its other keys are never walked into |
| Flattening.LeafRun | src/shuttle.tsx:25-35 | processing a leaf pushes the record built from its `name` and `cmd`, or throws |
| Flattening.NullRun | src/shuttle.tsx:25 | processing `null` throws on reading `name` and pushes nothing |
| Flattening.GroupStops | src/shuttle.tsx:38-40 | any other value's stops are those of its `Object.entries` |
| Flattening.MakeHost | src/shuttle.tsx:26-33 | the record exists exactly when `cmd` is a string whose fields extract; it copies `name`, `cmd` and `path` and holds the extracted fields; an array `cmd` throws at `substring`, which arrays lack, and any other non-string `cmd` throws at `indexOf` |
| Flattening.RunOne | src/shuttle.tsx:20 | visiting one stop yields its record or its exception |
| Flattening.RunAppend | src/shuttle.tsx:19-21 | visiting two runs of stops in turn is visiting the first, then the second unless the first threw |
| Flattening.Emits | src/shuttle.tsx:19-21 | (definition) the result of each stop, in order |
| Flattening.EmitsAppend | src/shuttle.tsx:19-21 | the results of concatenated stops are the concatenated results |
| Flattening.RunEmpty | src/shuttle.tsx:15-17 | visiting no stops yields nothing and throws nothing |
| Flattening.ItemsEmptyRun | src/shuttle.tsx:19 | before the first item of a list, nothing has been pushed |
| Flattening.MembersEmptyRun | src/shuttle.tsx:38 | before the first entry of a group, nothing has been pushed |
| Flattening.ItemsStep | src/shuttle.tsx:19-21 | processing one more item of a list runs that item after the earlier ones |
| Flattening.MembersStep | src/shuttle.tsx:38-40 | processing one more entry of a group runs that entry's list after the earlier ones |
| Flattening.ItemsThrowStops | src/shuttle.tsx:19-21 | once an item has thrown, the rest of the list adds nothing and changes nothing |
| Flattening.MembersThrowStops | src/shuttle.tsx:38-40 | once an entry has thrown, the rest of the group adds nothing and changes nothing |
| Flattening.ItemsAdvance | src/shuttle.tsx:19-21 | after item `i`, the array holds what it held, then the records of items 0..i; its exception is the list's |
| Flattening.MembersAdvance | src/shuttle.tsx:38-40 | after entry `i`, the array holds what it held, then the records of entries 0..i; its exception is the group's |
| Flattening.ListStopsExtendPath | src/shuttle.tsx:29 | every stop below a list carries a path that extends the list's path |
| Flattening.ItemsStopsExtendPath | src/shuttle.tsx:20 | every stop below a list's items extends the list's path |
| Flattening.ItemStopsExtendPath | src/shuttle.tsx:29 | every stop below an item extends the item's path |
| Flattening.MembersStopsExtendPath | src/shuttle.tsx:39 | every stop below a group's entries extends the group's path |
| Flattening.ListRecords | src/shuttle.tsx:26-29 | there are no more records than stops, and exactly as many when nothing throws; record `k` comes from leaf stop `k`, with its `name`, `cmd` and path copied and its path extending the starting path |
| Extraction.Extract | src/shuttle.tsx:30-32 | the fields extract exactly when `cmd` has an `@` and a whitespace, word run and `@` somewhere; otherwise indexing the null match throws; on success they are `Comment`, the address match and the user match |
| Extraction.Comment | src/shuttle.tsx:30 | the comment is the trim of what follows the first `#`, or of the whole command when there is none |
| Extraction.CommentIs | src/shuttle.tsx:30 | any trim of what follows the first `#` (or of the whole command) is the comment |
| Extraction.CommentAfterHash | src/shuttle.tsx:30 | a command whose first `#` precedes `note` has `note` trimmed as its comment |
| Extraction.LongestHostRun | src/shuttle.tsx:31 | (definition) `g` is the run of `[.\w\d]` characters that starts at the position and cannot be extended |
| Extraction.IpMatch | src/shuttle.tsx:31 | the match is null exactly when there is no `@`; otherwise group 1 is the longest run of `[.\w\d]` after the first `@`, and undefined when that run is empty |
| Extraction.HostRunChars | src/shuttle.tsx:31 | every character of an address run is in `[.\w\d]` |
| Extraction.HostRunUnique | src/shuttle.tsx:31 | the longest run at a position is unique |
| Extraction.IpMatchIs | src/shuttle.tsx:31 | the address match is exactly the longest run after the first `@` |
| Extraction.UserEnd | src/shuttle.tsx:32 | a user match starting at `i` ends exactly where the word run after `i` ends |
| Extraction.UserSearch | src/shuttle.tsx:32 | the scan finds a match at or after `from` with none before it, or reports that there is none |
| Extraction.UserAt | src/shuttle.tsx:32 | (definition) the pattern `\s([\w\d]+)@` matches at `i` with its group ending at `j`: whitespace at `i`, at least one word character, then `@` at `j` |
| Extraction.LeftmostUserAt | src/shuttle.tsx:32 | (definition) a match at `i` with no match starting before `i`, the one `match` reports |
| Extraction.UserMatch | src/shuttle.tsx:32 | the match is null exactly when no whitespace, word run and `@` occur; otherwise it is the word run of the leftmost such match |
| Extraction.UserMatchIs | src/shuttle.tsx:32 | the leftmost match is the one reported |
| Extraction.LoginFields | src/shuttle.tsx:30-32 | for `<program> <user>@<host><rest>` the user is `user`, and the address is `host` (undefined when it is empty) |
| Extraction.LoginWithoutNoteFields | src/shuttle.tsx:30-32 | for such a login with no `#`, a program that does not start with whitespace and a rest that does not end with it, the comment is the whole command |
| Extraction.LoginWithNoteFields | src/shuttle.tsx:30-32 | with a `#` after the host, the comment is the trimmed note after it |
| Extraction.NoSpaceNoUser | src/shuttle.tsx:32 | a command without whitespace throws on the user match |
| Text.IsSpace | src/shuttle.tsx:30-32 | (definition) the ECMAScript WhiteSpace and LineTerminator characters, which `trim` removes and `\s` matches |
| Text.IsWordChar | src/shuttle.tsx:31-32 | (definition) `\w`, that is ASCII letters, digits and `_`; `[\w\d]` is the same class |
| Text.IsHostChar | src/shuttle.tsx:31 | (definition) the class `[\.\w\d]`: a word character or a dot, and no hyphen |
| Text.Trim | src/shuttle.tsx:30 | the result is `s` with exactly its leading and trailing whitespace removed |
| Text.LeadingSpace | src/shuttle.tsx:30 | `s` starts with exactly that many whitespace characters |
| Text.TrailingStart | src/shuttle.tsx:30 | `s` ends with whitespace from exactly that position |
| Text.TrimUnique | src/shuttle.tsx:30 | there is only one trim of a string |
| Text.TrimFrom | src/shuttle.tsx:30 | a non-blank part surrounded by whitespace is the trim |
| Text.TrimKeeps | src/shuttle.tsx:30 | a string that neither starts nor ends with whitespace is its own trim |
| Text.TrimIdempotent | src/shuttle.tsx:30 | trimming twice is trimming once |
| Text.IndexOf | src/shuttle.tsx:30 | the result is -1 exactly when `c` does not occur, and otherwise the first position of `c` |
| Text.IndexOfFirst | src/shuttle.tsx:30 | the first occurrence is the one found |
| Text.FirstAtLeast | src/shuttle.tsx:30-31 | no occurrence comes before the first |
| Text.RunEnd | src/shuttle.tsx:31-32 | the run from `i` to the result is all class characters and is followed by a non-class character or the end |
| Text.Join | src/shuttle.tsx:117 | (definition) the parts with the separator between each two of them; `JoinAppend` states how one more part extends the join |
| Text.JoinAppend | src/shuttle.tsx:117 | appending a part to a non-empty join adds one separator and the part |
| Values.Truthy | src/shuttle.tsx:25 | (definition) JavaScript truthiness: `null`, `false`, zero and the empty string are falsy, and every array and object is truthy |
| Values.TruthyField | src/shuttle.tsx:25 | (definition) a missing property (`undefined`) is falsy, and a present one is as truthy as its value |
| Values.Lookup | src/shuttle.tsx:25 | a property is undefined exactly when no member has that key; otherwise it is a member's value |
| Values.Field | src/shuttle.tsx:25 | only an object has a property, and it is the lookup among its members |
| Values.Entries | src/shuttle.tsx:38 | the entries of a value are smaller than the value, so the walk ends |
| Values.EntriesOf | src/shuttle.tsx:38 | an object's entries are its members, an array's are its items keyed by index, a string's are its characters, and a number or boolean has none |
| Values.IndexedMembers | src/shuttle.tsx:38 | entry `i` of an array is keyed by the decimal index `i` and holds item `i` |
| Values.CharMembers | src/shuttle.tsx:38 | entry `i` of a string is keyed by `i` and holds character `i` as a string |
| Values.Decimal | src/shuttle.tsx:38 | an index key is the decimal digits of the index, with no leading zero |
| Values.DecimalInjective | src/shuttle.tsx:38-39 | different indices give different keys, so the paths below distinct items of an array-valued group differ |
| Values.ItemSmaller | src/shuttle.tsx:19-20 | each item of a list is smaller than the list |
| Values.MemberSmaller | src/shuttle.tsx:38-39 | each entry's value is smaller than the entries |
| Outcomes.Then | src/shuttle.tsx:19-21 | (definition) a second piece of work runs only if the first did not throw, and its values follow the first's |
| Outcomes.Step | src/shuttle.tsx:20 | (definition) one step yields its value, or throws its exception and yields nothing |
| Outcomes.Collect | src/shuttle.tsx:19-21 | (definition) the steps run in order, each after the previous one with `Then`, so the first throw ends the run |
| Outcomes.CollectSteps | src/shuttle.tsx:19-21 | the values are the results of the steps before the first throw, in order; the exception is that step's; with no throw, every step's value is there |
| Outcomes.CollectAppend | src/shuttle.tsx:19-21 | running `a + b` is running `a`, then `b` |
| Outcomes.CollectOne | src/shuttle.tsx:20 | a single step yields its value or its exception |
| Outcomes.ThenAssociative | src/shuttle.tsx:19-21 | sequencing groups either way |
| Outcomes.ThenValues | src/shuttle.tsx:19-21 | after steps that did not throw, one more step adds its values after theirs |
| Outcomes.ThrownStays | src/shuttle.tsx:19-21 | after a throw, further steps change nothing |
| Outcomes.Map | src/shuttle.tsx:120 | element `i` of the result is `f` of element `i` |
| Outcomes.MapAppend | src/shuttle.tsx:19-21 | mapping distributes over concatenation |
| Display.JsText | src/shuttle.tsx:117 | (definition) the `String` conversion `join` applies to the name: the text of a number, a string or a boolean, an array's elements joined with ",", and "[object Object]" for an object |
| Display.ElementsText | src/shuttle.tsx:117 | (definition) an array's elements joined with ",", a `null` element contributing nothing |
| Display.Title | src/shuttle.tsx:117 | (definition) the path followed by the name, joined with " / "; `TitleShape` states its shape |
| Display.TitleShape | src/shuttle.tsx:117 | at the top level the title is the name, otherwise the path joined with " / ", one more separator and the name |
| Display.KeywordText | src/shuttle.tsx:120 | (definition) an undefined keyword prints as nothing, and any other prints as its `String` conversion |
| Display.Keywords | src/shuttle.tsx:120 | the keywords are the path segments, then the name, the command and the address, which is undefined exactly when the record has none |
| Display.TitleFromKeywords | src/shuttle.tsx:117-120 | the title is the keywords before the command joined with " / " |
| Scenarios.TrimLeadingSpace | src/shuttle.tsx:30 | a note after one space trims to the note |
| Scenarios.SpacedNote | src/shuttle.tsx:30-32 | for `<program> <user>@<host> # <note>` the comment is the note |
| Scenarios.LoginWithNote | src/shuttle.tsx:30-32 | `ssh bob@10.0.0.5 # pw` yields comment `pw`, address `10.0.0.5` and user `bob` |
| Scenarios.LoginWithoutNote | src/shuttle.tsx:30-32 | `ssh bob@db.lan` yields the whole command as its comment, address `db.lan` and user `bob` |
| Scenarios.HyphenatedHost | src/shuttle.tsx:31 | `ssh root@my-host` yields address `my` |
| Scenarios.NoAddress | src/shuttle.tsx:31 | `ssh a@ -p 22` yields an undefined address and user `a` |
| Scenarios.NoAt | src/shuttle.tsx:31 | `echo hello` throws |
| Scenarios.UserFirst | src/shuttle.tsx:32 | `root@host` throws, because no whitespace precedes the user |

## Left out

- Reading `~/.shuttle.json` and `JSON.parse` (src/shuttle.tsx:8-10): the model starts from the parsed value. A parse error is not modelled.
- `runInTerminal` and its AppleScript (src/shuttle.tsx:47-108): dispatching to iTerm is an external process.
- The rest of the list view (src/shuttle.tsx:110-137). Only the title and the keywords are modelled. The subtitle, the user tag and the copied comment are plain reads of record fields.
- Object property order: objects keep their members in document order. JavaScript's moving of integer-like keys first is not modelled, and neither are duplicate keys.
- Inherited properties: a property read sees only the object's own members, and properties such as `length` or built-in methods are not modelled.
- Numbers are kept as the text `String(n)` gives. Arithmetic on them is never performed, and parsing number text is not modelled. `Values.Truthy` treats only the text "0" as falsy, which is right only for text in that canonical form: a `JNum` holding another spelling of zero, such as "0.0" or "-0", is not excluded by the type and would count as truthy, although JavaScript's zero is falsy.
- Strings are sequences of characters. UTF-16 surrogate pairs and the Unicode-aware behaviour of `\s` beyond the characters listed in `Text.IsSpace` are not modelled.
- Values.Entries: its ensures states only that the entries are smaller. What the entries are is stated by `Values.EntriesOf`.
- Display: `JsText` covers the values a JSON catalog can hold. It does not model the `String` conversion of other JavaScript values.
