# Firefox user.js configurator — verified model

A Dafny model of the logic inside a browser extension that builds a Firefox
`user.js` file from privacy, security and performance settings. The model covers
four parts of the extension:

- **The development stand-in for the extension API** (`MockBrowser`, `UserJs`).
  It holds an in-memory key/value store and a `sendMessage` handler.
  `BACKUP_PROFILE` returns the store. `APPLY_SETTINGS` turns a settings object
  into the text of `user.js` (two comment lines, an empty line, then one
  `user_pref("<key>", <value>);` line per entry, with `"` and `\` escaped in
  string values) and merges the settings into the store.
- **The native messaging host** (`NativeFraming`, `ProfilesIni`, `NativeHost`).
  Messages are length-prefixed JSON on standard input and output. The host
  finds the default profile by scanning `profiles.ini`, writes `user.js` into
  it or restarts Firefox, and answers each JSON-object request with exactly
  one response. A null message stops the host. Any other message, a cut-off
  length or unreadable JSON ends it without an answer.
- **The page state** (`App`). It holds the selected categories and the settings
  object. It supports a single-key edit, export to a versioned configuration
  document, and import from such a document.
- **The category selector and the settings panel** (`CategorySelector`,
  `SettingsPanel`, `Catalog`). These cover the list toggle, per-category
  filtering of the settings catalog, value formatting with a unit, and the
  `value ?? default` fallback.

JavaScript and JSON values share one datatype, `JsValues.Json`. An object is a
sequence of key/value pairs. Keys keep their insertion order, and a read finds
the last pair with that key. `Put` is `{...r, [k]: v}`. `Assign` is
`Object.assign`. `ToObject` is how `JSON.parse` builds an object from its
members.

The native side's stdin and stdout are small classes over byte sequences.
The host's view of the machine is a class whose fields the request handler
updates in place. The `main` loop is a `while` loop proved against the
function `NativeHost.Run`, and the lemmas are proved about that function.

The JSON library (`json.dumps(...).encode('utf-8')` and `json.loads`) is a
parameter, `NativeFraming.Codec`. Lemmas that need it to read back what it
wrote assume `Faithful(c)`: every well-formed value (no repeated key in any
object) reads back as itself. The lemmas about the whole loop also assume that
each response the host can give fits in a frame, `HostResponsesFit(c, env)`;
there are finitely many such responses (`HostResponses`). The same goes for
JavaScript's `JSON.parse` at import: the model takes its result as an
`Option<Json>`.

Changing the category selection replaces only the selection; the settings
object is neither pruned nor filled with defaults.

## Model

| member | source | states |
|---|---|---|
| JsValues.Put | src/App.tsx:129 | `{...prev, [id]: value}` keeps keys unique; a new key is appended at the end, an existing key keeps its place and the key list is unchanged |
| JsValues.PutLookup | src/App.tsx:129 | after the spread update, the edited key holds the new value and every other key reads as before |
| JsValues.Assign | src/mock/browser.ts:15 | `Object.assign` into an object yields an object (unique keys) |
| JsValues.AssignLookup | src/mock/browser.ts:51 | after `Object.assign(store, settings)` a key holds its value in `settings` when `settings` has it, and its old store value otherwise |
| JsValues.AssignKeys | src/mock/browser.ts:51 | the keys after merging are exactly the old keys plus the keys of the merged object; no key is lost |
| JsValues.ToObject | src/App.tsx:37 | an object built from parsed members has unique keys and reads every key as its last member does |
| JsValues.ToObjectOfObject | src/App.tsx:37-39 | re-building an object that already has unique keys gives it back unchanged |
| JsValues.Entries | src/mock/browser.ts:32 | `Object.entries` throws exactly for null or undefined. Otherwise its entries have distinct keys. An object's entries read every key as the object does, and are the object's own pairs when it has no repeated key. An array or a string gives one entry per index, a number or a boolean none |
| Decimal.IntToStringRoundTrip | src/components/SettingsPanel.tsx:114 | `Number(String(n))` is `n` for every integer |
| UserJs.Escape | src/mock/browser.ts:34 | the escaped text is at least as long as the original and at most twice as long; the exact content is fixed by `ReadEscaped`, which undoes it |
| UserJs.ReadEscaped | src/mock/browser.ts:33-34 | dropping each escaping backslash of an escaped string recovers the string, and reading stops exactly at the closing quote |
| UserJs.EscapePlain | src/mock/browser.ts:34 | `Escape` leaves text without `"` or `\` unchanged |
| UserJs.StringLiteralRoundTrip | src/mock/browser.ts:33-34 | a string value is written as a quoted, escaped literal that reads back as that string |
| UserJs.JsString | src/mock/browser.ts:35-36 | `${value}` of a number is its decimal text, which reads back as that number; `LiteralRoundTrip` states that booleans and null read back too |
| UserJs.NumberLiteralRoundTrip | src/mock/browser.ts:35 | a number is written unquoted as its decimal text and reads back as that number |
| UserJs.FormatValue | src/mock/browser.ts:33-35 | a string value is written between double quotes around its escaped text; `LiteralRoundTrip` states that every scalar reads back |
| UserJs.LiteralRoundTrip | src/mock/browser.ts:33-35 | every string, number, boolean or null value reads back from its formatted text |
| UserJs.PrefLineRoundTrip | src/mock/browser.ts:36 | a line `user_pref("<key>", <value>);` reads back as its key and value when the key has no quote or backslash |
| UserJs.UserJsContent | src/mock/browser.ts:28-38 | the file always opens with the title comment line and the `Generated on` line carrying the timestamp |
| UserJs.UserJsLineStructure | src/mock/browser.ts:28-38 | split at line feeds, the file is the two comment lines, the empty line, then exactly one preference line per entry in entry order, 3 + n lines in all |
| MockBrowser.ApplySettingsLookup | src/mock/browser.ts:32-51 | after `APPLY_SETTINGS` with a settings object, each key it has holds its value there and every other key keeps its stored value |
| MockBrowser.ApplySettingsLines | src/mock/browser.ts:28-38 | for settings without a repeated key, the user.js text is built from exactly the object's own pairs, in order |
| MockBrowser.Browser.constructor | src/mock/browser.ts:2 | the store starts empty |
| MockBrowser.Browser.StorageGet | src/mock/browser.ts:13 | `get()` returns an object with the same keys and values as the store, and the store is left unchanged |
| MockBrowser.Browser.StorageSet | src/mock/browser.ts:14-16 | `set(items)` merges the items into the store as `Object.assign` does |
| MockBrowser.Browser.SendMessage | src/mock/browser.ts:20-55 | `BACKUP_PROFILE` answers `{success: true, data: store}` with the store unchanged. `APPLY_SETTINGS` produces the user.js text of the settings, merges them into the store (a key of the settings object holds its value there, every other key its old value) and answers `{success: true}`. It rejects, with the store unchanged, when `settings` is null or missing. Any other type answers `{success: false, error: 'Unknown message type'}` with the store unchanged. A null message rejects |
| NativeFraming.PackLength | native/firefox_configurator.py:20 | the packed length has 4 bytes and unpacks to the same number |
| NativeFraming.UnpackLength | native/firefox_configurator.py:14 | an unpacked length is below 2^32 |
| NativeFraming.PackUnpack | native/firefox_configurator.py:14 | every 4-byte prefix is the packing of its value, so packing and unpacking are inverse |
| NativeFraming.Frame | native/firefox_configurator.py:19-22 | a frame is 4 bytes longer than the serialised message; its content is fixed by `FrameRoundTrip`, which reads it back |
| NativeFraming.ReadFrame | native/firefox_configurator.py:10-16 | `get_message` returns None exactly at the end of the input, without consuming anything; a message consumes its 4 length bytes and more |
| NativeFraming.FrameRoundTrip | native/firefox_configurator.py:10-22 | a frame written by `send_message` is read back by `get_message` as the original message, ending right after the frame |
| NativeFraming.FrameAt | native/firefox_configurator.py:10-16 | the same round trip for a frame found at any position of the input |
| NativeFraming.ReadAllFrames | native/firefox_configurator.py:10-22 | back-to-back frames read back as exactly their messages, in order, one per frame |
| NativeFraming.InStream.constructor | native/firefox_configurator.py:11 | standard input starts at its first byte |
| NativeFraming.InStream.Read | native/firefox_configurator.py:15 | `read(n)` returns the next `n` bytes, or fewer at the end, and advances past them |
| NativeFraming.OutStream.constructor | native/firefox_configurator.py:21 | nothing is written at the start |
| NativeFraming.OutStream.Write | native/firefox_configurator.py:21-22 | a write appends its bytes |
| NativeFraming.GetMessage | native/firefox_configurator.py:10-16 | the reading method returns what `ReadFrame` describes and leaves the stream after the frame |
| NativeFraming.SendMessage | native/firefox_configurator.py:18-23 | when the length fits in 4 bytes, writes exactly the length followed by the message bytes; otherwise writes nothing |
| ProfilesIni.Strip | native/firefox_configurator.py:48 | the stripped line is a slice of the line with only white space around it, and starts and ends with non-space text |
| ProfilesIni.SplitFirst | native/firefox_configurator.py:55 | the key and value joined by `=` give the line back, and the key has no `=` |
| ProfilesIni.AddLineSplitsAtFirstEquals | native/firefox_configurator.py:54-56 | `AddLine`: a line with `=` stores its stripped key (the text before the first `=`) with its stripped value, changing only that key; other lines change nothing |
| ProfilesIni.ScanIsFirstDefault | native/firefox_configurator.py:46-56 | `Scan`, the line loop as a function, chooses the `Path` of the first section a header line closes whose `Default` is `1` |
| ProfilesIni.FirstDefaultWins | native/firefox_configurator.py:49-52 | when section k is the first default section, its `Path` is chosen regardless of later sections |
| ProfilesIni.UnclosedSectionIgnored | native/firefox_configurator.py:46-62 | with no header line after it, a default section is never chosen and the result is None |
| ProfilesIni.PathJoinParts | native/firefox_configurator.py:61 | `PathJoin`, `os.path.join`: an absolute second part is the result; a relative one is appended to the first, with a `/` inserted exactly when the first is non-empty and does not end in `/`; the result always ends with the second part |
| ProfilesIni.ResolveProfile | native/firefox_configurator.py:58-62 | a missing or empty `Path` gives None; an absolute one is returned unchanged; a relative one is the Mozilla directory followed by the path, with a `/` inserted exactly when the directory is non-empty and does not already end in `/` |
| ProfilesIni.ProfileDir | native/firefox_configurator.py:39-62 | `get_profile_dir` once the platform has given the Mozilla directory: None when `profiles.ini` is missing, and never an empty directory; `GetProfileDir` is proved equal to it |
| ProfilesIni.GetProfileDir | native/firefox_configurator.py:43-62 | the line loop returns the profile directory the scan and resolution functions describe, and None when the file is missing |
| NativeHost.Handle | native/firefox_configurator.py:85-110 | a null message stops the loop, another non-object raises outside the `try`, and an object gets an answer; only an answered request changes the machine |
| NativeHost.ArgTypeName | native/firefox_configurator.py:100 | the type name in the `TypeError` of `f.write` is one of `None`, `bool`, `int`, `str`, `list` or `dict` |
| NativeHost.ResponseJsonReads | native/firefox_configurator.py:90-110 | `ResponseJson`, the response dict: `success` holds the flag, and `error` is present exactly when there is an error text, holding that text |
| NativeHost.WriteUserJs | native/firefox_configurator.py:93-101 | a response succeeds exactly when it carries no error text, and writing never restarts Firefox |
| NativeHost.WriteUserJsEffect | native/firefox_configurator.py:93-101 | `WRITE_USER_JS` succeeds exactly when a profile is found, its user.js opens and `content` is a string, and then user.js holds the content. Once the file is opened, any failure leaves it empty. No other file changes. A failure carries `str(e)` of its exception: the missing-profile text, the open error of the file, `'content'` when the key is missing, or the `write()` type error naming the content's type |
| NativeHost.SettingsRequestEmptiesUserJs | native/firefox_configurator.py:99-100 | a request carrying `settings` instead of `content` empties user.js and answers with the error `'content'` |
| NativeHost.NullContentError | native/firefox_configurator.py:98-110 | a request whose `content` is null empties user.js and answers with `write() argument must be str, not None` |
| NativeHost.CommandReplies | native/firefox_configurator.py:89-107 | `RESTART_BROWSER` restarts once, leaves the files, and answers success or `Failed to restart Firefox` as restarting works; any other `cmd`, or none, answers `Unknown command` and changes nothing |
| NativeHost.HandleResponses | native/firefox_configurator.py:89-110 | every answer the host gives is one of the responses in `HostResponses`: success, a fixed error text, a `write()` type error, or a file's open error |
| NativeHost.Host.constructor | native/firefox_configurator.py:83 | the host starts with the given files and no restarts |
| NativeHost.Host.RestartFirefox | native/firefox_configurator.py:64-81 | a restart is attempted, files are untouched, and the result is whether restarting works on the machine |
| NativeHost.Host.WriteUserJsFile | native/firefox_configurator.py:93-101 | the in-place branch yields the response and file state that `WriteUserJs` describes, including the `write()` type error that names a null content `None` |
| NativeHost.Host.HandleMessage | native/firefox_configurator.py:85-110 | the in-place loop body yields the outcome and new state that `Handle` describes |
| NativeHost.Serve | native/firefox_configurator.py:83-112 | the `while True` loop writes, changes and ends exactly as `Session` describes |
| NativeHost.Run | native/firefox_configurator.py:84-112 | the loop only appends to what it has written |
| NativeHost.Session | native/firefox_configurator.py:83-112 | `main` only appends to standard output |
| NativeHost.Replies | native/firefox_configurator.py:84-112 | a run of object messages gets one response per message |
| NativeHost.RunAtEnd | native/firefox_configurator.py:85-87 | at the end of the input the loop stops cleanly, writing nothing more |
| NativeHost.RunStep | native/firefox_configurator.py:84-112 | one turn reads a framed well-formed object, answers it with one frame and goes on right after the frame, for a step whose answers fit in a frame |
| NativeHost.ResponseFramesAreFrames | native/firefox_configurator.py:112 | the bytes of the answers to a run of objects are the frames of the responses, one per message, in order |
| NativeHost.HostAnswersFit | native/firefox_configurator.py:89-112 | when every response in `HostResponses` fits in a frame, every answer of the host does |
| NativeHost.RunOverFrames | native/firefox_configurator.py:84-112 | on a run of framed well-formed objects, the loop writes the frames of the responses in message order, ends in the state after them, and finishes cleanly |
| NativeHost.HostStepAnswers | native/firefox_configurator.py:89-110 | the host answers every JSON object, whatever its `cmd` and whether or not handling raises |
| NativeHost.OneResponsePerMessage | native/firefox_configurator.py:83-112 | on an input of framed well-formed JSON objects, `main` answers each one exactly once, in order, and finishes cleanly; its output reads back as that many responses |
| NativeHost.NullMessageStops | native/firefox_configurator.py:85-87 | a message that is JSON `null` stops the loop without an answer, as at the end of the input |
| NativeHost.NonObjectMessageStops | native/firefox_configurator.py:89 | any other non-object message ends the program without an answer |
| CategorySelector.Without | src/components/CategorySelector.tsx:14 | `filter(c => c !== id)` removes every occurrence of `id` and keeps every other element, with its count and in order |
| CategorySelector.ToggleCategory | src/components/CategorySelector.tsx:12-18 | membership of `id` flips and no other id's membership changes; an absent id is appended at the end; a present one is removed in every occurrence, keeping the others in order |
| CategorySelector.WithoutAbsent | src/components/CategorySelector.tsx:14 | removing an id that is not in the list leaves the list as it is |
| CategorySelector.WithoutAppended | src/components/CategorySelector.tsx:13-16 | removing an id that was just appended to a list without it gives that list back |
| CategorySelector.ToggleTwiceAbsent | src/components/CategorySelector.tsx:13-16 | toggling an absent id twice returns exactly the original list |
| CategorySelector.ToggleTwiceMembers | src/components/CategorySelector.tsx:12-18 | toggling any id twice leaves the same set of ids selected; the settings panel's group headers use the same toggle (src/components/SettingsPanel.tsx:17-21), so two clicks leave the same groups expanded |
| CategorySelector.WithoutDistinct | src/components/CategorySelector.tsx:14 | filtering keeps a list free of duplicates |
| CategorySelector.ToggleDistinct | src/components/CategorySelector.tsx:12-18 | a list without duplicates stays without duplicates after a toggle |
| SettingsPanel.SettingsOf | src/components/SettingsPanel.tsx:26 | the filtered catalog has exactly the entries whose category list includes the category, each as often as in the catalog, in catalog order |
| SettingsPanel.CategorySettings | src/components/SettingsPanel.tsx:24-27 | one group per selected category, in selection order, each holding that category's filtered catalog |
| SettingsPanel.GroupsShowTheirCategory | src/components/SettingsPanel.tsx:24-27 | an entry is in a group if and only if it is in the catalog and belongs to the group's category |
| SettingsPanel.FormatValue | src/components/SettingsPanel.tsx:29-31 | without a unit, or with an empty one, the value is shown as it is; with a unit, the text ends with a space and the unit |
| SettingsPanel.FormatValueReadBack | src/components/SettingsPanel.tsx:29-31 | with a non-empty unit, the number is shown as its text, one space and the unit, and both parts read back; without a unit, the number itself is shown |
| SettingsPanel.DisplayedValue | src/components/SettingsPanel.tsx:94 | the shown value is the stored one when it is present and not null, and the catalog default otherwise |
| SettingsPanel.CheckboxEditIsDisplayed | src/components/SettingsPanel.tsx:94-95 | once the edit a checkbox reports is stored, that checkbox shows the checked state it was clicked to, and every other setting shows what it showed before |
| SettingsPanel.RangeEdit | src/components/SettingsPanel.tsx:114 | a range input reports its own setting's id with `Number` of its text, and reports nothing when the text is not an integer |
| SettingsPanel.RangeEditReportsPosition | src/components/SettingsPanel.tsx:114 | a slider at position n reports n for its own setting |
| SettingsPanel.RangeEditIsDisplayed | src/components/SettingsPanel.tsx:113-114 | once the edit a slider at position n reports is stored, that slider shows n, and every other setting shows what it showed before |
| SettingsPanel.EditIsDisplayed | src/components/SettingsPanel.tsx:113 | after an edit is stored, its setting shows the new value, or the default when the value is null, and every other setting shows what it showed before |
| SettingsPanel.Panel.constructor | src/components/SettingsPanel.tsx:13 | the panel starts with the selection it is first shown with expanded |
| SettingsPanel.Panel.ToggleCategory | src/components/SettingsPanel.tsx:16-22 | the expanded list becomes the toggled list: the clicked group's expansion flips and no other group's does |
| App.Strings | src/App.tsx:15 | the id list is exported as an array of the same length with the ids as strings |
| App.StringsOf | src/App.tsx:38 | an array reads back as ids exactly when every element is a string, and then element by element |
| App.Document | src/App.tsx:14-19 | the document has the keys categories, settings, timestamp and version, with the current selection, the current settings, the timestamp and version `1.0.0` |
| App.DecodeDocument | src/App.tsx:37-39 | a document is taken exactly when it has a `categories` array of strings and a `settings` object; then the categories are that array and the settings read as the document's |
| App.ExportImportRoundTrip | src/App.tsx:14-39 | importing an exported document restores the same categories and the same settings, when the export text is parsed back into the document it was made from |
| App.App.constructor | src/App.tsx:9-10 | no category is selected, the settings object is empty, and no settings panel is shown |
| App.App.OnCategoriesChange | src/App.tsx:120-123 | the new selection replaces the old one; the settings are unchanged; the panel is shown exactly when the new selection is non-empty |
| App.App.OnSettingChange | src/App.tsx:129 | the edited key holds the new value, every other key keeps its value, at most one key is added, and the selection is unchanged |
| App.App.ExportConfig | src/App.tsx:13-19 | the exported document carries version `1.0.0` and imports back as the current state |
| App.App.ImportConfig | src/App.tsx:35-42 | a parsed document replaces both the selection and the settings; a parse failure leaves both unchanged |

## Left out

- Numbers are integers. Floating-point values and JavaScript's or Python's float formatting are not modelled.
- App.ExportImportRoundTrip: the lemma starts from the document value. It assumes that `JSON.parse` of the exported text gives back that document; the text itself is not modelled.
- JSON serialisation and parsing, with UTF-8 encoding, are parameters. `JSON.stringify`'s indentation of the export file is not modelled.
- Strings are sequences of characters. UTF-16 code units, and the UTF-8 byte length of non-ASCII text, are abstracted into the codec.
- JavaScript object key order is insertion order. The engine's rule that integer-like keys come first is not modelled.
- App.App.ImportConfig: a parsed document whose `categories` is not an array of strings, or whose `settings` is not an object, leaves the state unchanged. The source stores whatever the fields hold; the typed state cannot represent that.
- MockBrowser.Browser.SendMessage: `BACKUP_PROFILE` returns a snapshot of the store. The source returns the store object itself, which later updates change through aliasing.
- MockBrowser.Browser.SendMessage: the Blob, object URL, anchor click and timer of the download are left out. The user.js text is returned instead.
- Timestamps (`toISOString()` of the current time) are parameters in the export and in the user.js header.
- Detection of the real extension API (`chrome`/`browser`) is left out. The mock is treated as the implementation.
- `platform.system()`, `Path.home()` and `os.getenv` are left out. The Mozilla directory is a parameter, and paths follow POSIX rules only.
- `restart_firefox`'s subprocess calls are left out. Whether a restart works is a parameter of the machine.
- File-system effects of the host are left out except for the contents of written files. Open errors are a table of error texts given with the machine. Errors while reading `profiles.ini` are not modelled: the file is its list of lines, or missing.
- `str(e)` of exceptions other than the modelled `KeyError` and `TypeError` is not modelled.
- The flush of standard output is left out, and so is the death of the process on an uncaught exception; the model reports how the loop ended.
- The `struct` length is little-endian. The source uses the machine's native byte order, which is little-endian on x86 and ARM.
- UserJs.UserJsLineStructure: line feeds are not escaped in keys, string values or the timestamp, so such a value spans several lines and the file no longer has 3 + n lines; the lemma requires that no part contains a line feed.
- SettingsPanel.RangeEdit: the text of a range input is read as a decimal integer. `Number` of other text (fractions, exponents, white space) is not modelled.
- The settings catalog `src/data/settings` is not part of this model. Operations take the catalog as a sequence of `Setting` entries.
- The category list `src/data/categories.ts` (names, icons and descriptions for display) is left out as rendering data; a category is its id.
- Rendering is left out: JSX, CSS classes, ARIA attributes and the help pop-ups.
- The background scripts are left out. They forward `settings` where the host reads `content`, and `GET_PROFILE_DIR`, which the host answers with `Unknown command`. The first mismatch is stated by `NativeHost.SettingsRequestEmptiesUserJs`.
