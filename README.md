# EqApoConfig, modelled in Dafny

Equalizer APO GUI is a small Qt program that switches Equalizer APO profiles.
Its core is the `EqApoConfig` class. The class reads Equalizer APO's
`config.txt` into a list of profiles and a preamp state. It writes them back,
and it adds new profile files. `config.txt` holds one `Preamp: <gain> dB`
line and any number of `Include: <file>` lines. A leading `#` turns a line
off without deleting it.

The model has four modules:

- `Text` (text.dfy) holds the few `QString` operations the parser relies on:
  `trimmed`, case-insensitive `startsWith`/`endsWith`/`compare`, `remove`
  and `indexOf`. Whitespace and case are ASCII here. It also cuts a text
  into lines as `readLineInto` does, and joins lines as the writes do.
- `EqApoFormat` (eqapo_format.dfy) holds the data types of EqApoConfig.h and
  the file format.
  - `Classify` gives what one line means, and `Load` folds the lines into the
    state the way the reload loop does. `Parse` is the two composed.
  - `Render` gives the lines the save writes.
  - Most lemmas are about reading back what was written.
- `EqApoExamples` (eqapo_examples.dfy) states what a reload makes of concrete files.
- `EqApoStore` (eqapo_store.dfy) holds the class `EqApoConfig`.
  - Its fields are `profiles` and `preampState`, plus the constant
    `configFolder`.
  - Its methods are `ReloadConfig`, `SaveState`, `CreateNewProfile`, the two
    setters, the accessors, and the retrying `TryOpenFile` beside them.
  - Each method's contract ties its result to specification functions in
    `EqApoStore` (`ReloadOutcome`, `OpensWithin`, `AppendedLines`) and
    `EqApoFormat` (`Render`).

The file system is not modelled. Each operation instead takes what the
file system answers:

- what a read of `config.txt` yields (`ConfigFile`);
- for each open attempt, whether it succeeds (`nat -> bool`);
- whether a write or a close succeeds.

It returns the text it writes. The gain is a whole number of tenths of a
decibel. That is the precision the save keeps, since it writes one
fractional digit. `QString::toDouble` becomes a parameter of type
`GainParser`. `ParseGainText` is a concrete parser for what the save writes.

Two behaviours of the code are worth knowing:

- A reload that stops at a bad line keeps what it had read before that line.
  It does not restore the previous or the empty state.
- A later `Preamp:` line overrides an earlier one.

`LoadSummary` and `LaterPreampWins` state both behaviours.

## Model

| member | source | states |
|---|---|---|
| `Text.Trim` | EqApoConfig.cpp:35 | the result of `trimmed()` has no whitespace at either end |
| `Text.TrimSplit` | EqApoConfig.cpp:35 | every string is its trimmed form with only whitespace removed before and after it |
| `Text.TrimUnique` | EqApoConfig.cpp:35 | trimming a trimmed core padded with whitespace gives back exactly that core |
| `Text.TrimFixed` | EqApoConfig.cpp:35 | trimming leaves a string unchanged if and only if it has no whitespace at either end |
| `Text.TrimEmptyIffSpace` | EqApoConfig.cpp:35-36 | the trimmed line is empty if and only if the line is all whitespace |
| `Text.TrimIdempotent` | EqApoConfig.cpp:40 | trimming twice is trimming once |
| `Text.StartsWithCILowered` | EqApoConfig.cpp:41 | `startsWith(p, CaseInsensitive)` holds if and only if the first `|p|` characters equal `p` once both are lower-cased |
| `Text.EndsWithCILowered` | EqApoConfig.cpp:89 | `endsWith(p, CaseInsensitive)` holds if and only if the last `|p|` characters equal `p` once both are lower-cased |
| `Text.EqualsCILowered` | EqApoConfig.cpp:111 | `compare(b, CaseInsensitive) == 0` holds if and only if both strings are equal once lower-cased |
| `Text.RemoveAllCI` | EqApoConfig.cpp:44 | `remove(p, CaseInsensitive)` never lengthens the text |
| `Text.RemoveAllCIDeletes` | EqApoConfig.cpp:44 | `remove` only deletes: every character of the result comes from the text, no more often than there |
| `Text.RemoveAbsent` | EqApoConfig.cpp:44 | for a non-empty `p`, `remove(p, CaseInsensitive)` changes nothing when no character matches the last letter of `p` |
| `Text.RemoveLeading` | EqApoConfig.cpp:44 | for a non-empty `p`, a leading copy of `p` (in any case) is removed and the rest `s` kept, provided no character of `s` matches the last letter of `p` |
| `Text.RemoveTrailing` | EqApoConfig.cpp:44 | for a non-empty `p`, a trailing copy of `p` (in any case) is removed and the text `s` before it kept, provided no character of `s`, and no other letter of `p`, matches the last letter of `p` |
| `Text.IndexOf` | EqApoConfig.cpp:54 | `indexOf(':')` is -1 exactly when there is no colon, and otherwise the position of the first colon |
| `Text.SplitLines` | EqApoConfig.cpp:32-33 | the lines `readLineInto` yields hold no newline |
| `Text.SplitJoin` | EqApoConfig.cpp:33 | text written as lines each ending in a newline is read back as exactly those lines, when no line holds a newline |
| `Text.SplitAppended` | EqApoConfig.cpp:33 | lines appended to a text that is empty or ends in a newline read back as the text's lines followed by exactly those lines, when none holds a newline |
| `EqApoFormat.Classify` | EqApoConfig.cpp:35-58 | a preamp line's gain text, an include's name and an unknown line are trimmed; an unknown line is never empty |
| `EqApoFormat.Directive` | EqApoConfig.cpp:39-58 | a non-blank line is a preamp line carrying the enabled flag and the clean line, an include with the flag, or an unknown line holding the line as read |
| `EqApoFormat.ApplyPreamp` | EqApoConfig.cpp:41-48 | only a preamp line changes the preamp; it always sets the flag, and sets the gain exactly when the gain text parses |
| `EqApoFormat.LineStatus` | EqApoConfig.cpp:46-58 | a line fails exactly when it is unknown or a preamp line whose gain does not parse; an unknown line reports `UnknownLine` with the line, a bad gain `BadPreampGain` with the clean line |
| `EqApoFormat.Step` | EqApoConfig.cpp:35-58 | one line keeps the profiles read so far and adds one exactly when it is an include |
| `EqApoFormat.Load` | EqApoConfig.cpp:33-59 | a reload keeps the profiles it started with, adds at most one per line, and fails only with a gain or unknown-line error |
| `EqApoFormat.Parse` | EqApoConfig.cpp:20-59 | a reload from the empty state stores at most one profile per line and fails only with a gain or unknown-line error |
| `EqApoFormat.FormatGain` | EqApoConfig.cpp:140 | the gain written with `'f', 1`: non-empty, only digits, a minus and a point, ending in a digit |
| `EqApoFormat.PreampText` | EqApoConfig.cpp:140-142 | the written preamp line is non-empty, trimmed, holds no newline of its own, and starts with `#` exactly when the preamp is disabled |
| `EqApoFormat.IncludeText` | EqApoConfig.cpp:148-150 | a written profile line is non-empty, starts with `#` exactly when the profile is disabled, and holds a newline of its own only when the name does |
| `EqApoFormat.Render` | EqApoConfig.cpp:134-153 | the saved lines are the preamp line, then one profile line per profile in stored order |
| `EqApoFormat.DirectiveIncludeCI` | EqApoConfig.cpp:52-55 | a line starting `Include:` in any case names the trimmed text after its first colon, whatever colons the name holds |
| `EqApoFormat.ClassifyIncludeCI` | EqApoConfig.cpp:35-55 | an uncommented line that trims to an `Include:` line in any case reads as an enabled include of that name |
| `EqApoFormat.DirectiveInclude` | EqApoConfig.cpp:52-55 | the same for a line starting exactly `Include:` |
| `EqApoFormat.ClassifyIncludeText` | EqApoConfig.cpp:146-153 | a written profile line reads back as an include with the same enabled flag and the name trimmed |
| `EqApoFormat.IncludeRoundTrip` | EqApoConfig.cpp:146-153 | a written profile line reads back as exactly its profile if and only if the name is trimmed |
| `EqApoFormat.RemovePreampKeywords` | EqApoConfig.cpp:44 | for a gain text `<g>` made only of digits, `-` and `.`, removing `Preamp:` and then `dB` from `<Preamp:> <g> <dB>`, the keywords in any case, leaves `<g>` between two spaces |
| `EqApoFormat.DirectivePreampCI` | EqApoConfig.cpp:41-44 | for a non-empty `<g>` made only of digits, `-` and `.`, the gain text of `<Preamp:> <g> <dB>`, the keywords in any case, is exactly `<g>` |
| `EqApoFormat.PreampTextTrimmed` | EqApoConfig.cpp:140-142 | the written preamp line is trimmed, and starts with `#` exactly when the preamp is disabled |
| `EqApoFormat.ClassifyPreampText` | EqApoConfig.cpp:140-143 | the written preamp line reads back as a preamp line with the same flag and the formatted gain as its gain text |
| `EqApoFormat.LoadConcat` | EqApoConfig.cpp:33-59 | loading `a + b` is loading `a`, then, unless `a` failed, loading `b` from the state `a` left |
| `EqApoFormat.ParseFromConcat` | EqApoConfig.cpp:33-59 | the same for the lines of a file |
| `EqApoFormat.LoadIncludes` | EqApoConfig.cpp:52-56 | include lines append their profiles in order and never fail |
| `EqApoFormat.KindsOfProfileLines` | EqApoConfig.cpp:146-153 | each written profile line means an include of its profile, name trimmed |
| `EqApoFormat.ParseProfileLines` | EqApoConfig.cpp:146-153 | the written profile lines read back as the profiles with trimmed names, in order, without error |
| `EqApoFormat.KindsOfRender` | EqApoConfig.cpp:134-153 | a saved file means one preamp line with the formatted gain, then one include per profile |
| `EqApoFormat.ParseRendered` | EqApoConfig.cpp:134-160 | reloading the saved lines fails at the preamp line exactly when the gain text does not parse; otherwise it restores the profiles (names trimmed) and the flag, with the parsed gain |
| `EqApoFormat.RenderParseRoundTrip` | EqApoConfig.cpp:134-160 | reloading the saved lines restores the state without error if and only if every name is trimmed and the gain parser reads the formatted gain back |
| `EqApoFormat.ParsedNamesTrimmed` | EqApoConfig.cpp:54-55 | every profile a reload stores has a trimmed name |
| `EqApoFormat.ClassifyNoLineBreak` | EqApoConfig.cpp:54 | a line without a newline gives an include name without one |
| `EqApoFormat.ParsedNoLineBreaks` | EqApoConfig.cpp:33-55 | lines without newlines, as `readLineInto` yields them, give profile names without newlines |
| `EqApoFormat.RenderNoLineBreaks` | EqApoConfig.cpp:140-153 | when no profile name holds a newline, no saved line does |
| `EqApoFormat.ReparseRendered` | EqApoConfig.cpp:20-69 | lines that reload without error, saved and reloaded, give the same state, when the gain parser reads the formatted gain back |
| `EqApoFormat.FailureIndexFirst` | EqApoConfig.cpp:33-59 | the reload stops at the first line that fails: every line before it is accepted |
| `EqApoFormat.LoadProfilesSummary` | EqApoConfig.cpp:52-58 | a reload keeps exactly the includes before the first bad line, in order |
| `EqApoFormat.LoadStatusSummary` | EqApoConfig.cpp:47-58 | a reload reports the first bad line's error, or success when no line is bad |
| `EqApoFormat.LoadPreampSummary` | EqApoConfig.cpp:41-50 | every preamp line up to and including the bad one is applied; a bad gain still sets the flag |
| `EqApoFormat.LoadSummary` | EqApoConfig.cpp:33-59 | the three facts above together: no rollback, first error wins |
| `EqApoFormat.NoPreampKeepsDefault` | EqApoConfig.cpp:22-23 | a file without a preamp line leaves the preamp at gain 0, disabled |
| `EqApoFormat.BlankLine` | EqApoConfig.cpp:35-37 | a line means nothing if and only if it is all whitespace |
| `EqApoFormat.BlankLineIgnored` | EqApoConfig.cpp:35-37 | inserting a blank line anywhere in a file does not change the reload |
| `EqApoFormat.LoadLaterPreampWins` | EqApoConfig.cpp:41-48 | after lines that load without error, a preamp line whose gain parses is accepted and overrides every earlier preamp line: the preamp is its gain and flag |
| `EqApoFormat.LaterPreampWins` | EqApoConfig.cpp:41-48 | the same for the lines of a file: after lines that reload without error, a preamp line whose gain parses sets the preamp |
| `EqApoFormat.ParseFormatGain` | EqApoConfig.cpp:140 | `ParseGainText` reads the formatted gain back as the gain itself |
| `EqApoFormat.RenderParseRoundTripWithParser` | EqApoConfig.cpp:134-160 | with that parser, reloading the saved lines restores the state if and only if every name is trimmed |
| `EqApoExamples.IncludeOrderKept` | EqApoConfig.cpp:52-56 | `Include: A`, `#Include: B`, `Include: C` load as A on, B off, C on, in that order |
| `EqApoExamples.UnknownLineClassified` | EqApoConfig.cpp:57-58 | `Foo: bar` is not a line the format knows |
| `EqApoExamples.UnknownLineStops` | EqApoConfig.cpp:57-58 | an unknown line ends the reload with its error; the include before it is kept and the one after it is not read |
| `EqApoExamples.CommentedPreampLine` | EqApoConfig.cpp:39-44 | `#Preamp: 2.0dB` is a disabled preamp line with gain text `2.0` |
| `EqApoExamples.LowerCasePreampLine` | EqApoConfig.cpp:39-44 | `#preamp: -3.5 DB` is a disabled preamp line with gain text `-3.5`: both keywords match in any case |
| `EqApoStore.ReloadOutcome` | EqApoConfig.cpp:20-69 | a file that cannot be opened leaves the empty state and fails; otherwise the state is what the lines give, the first bad line's error wins, and success needs no read or close error |
| `EqApoStore.TryOpenFile` | EqApoConfig.cpp:9-18 | at most five attempts; it succeeds exactly when one of them does; it stops at the first success |
| `EqApoStore.NormalizeFileName` | EqApoConfig.cpp:88-90 | the file name ends in `.txt` in some case; `.txt` is added only when the name does not end so |
| `EqApoStore.NormalizeIdempotent` | EqApoConfig.cpp:88-90 | normalising a file name twice is normalising it once |
| `EqApoStore.HasIncludeCI` | EqApoConfig.cpp:111 | whether a profile is loaded under a name does not depend on the name's case |
| `EqApoStore.NewIncludeLineReadBack` | EqApoConfig.cpp:109 | the appended `#Include:` line reads back as a disabled include of the trimmed file name |
| `EqApoStore.AsWrittenIgnoresIncluded` | EqApoConfig.cpp:111-115 | when the file is loaded but the typed name is not, the source's check appends the line again, and the corrected one appends nothing |
| `EqApoStore.AppendedIncludeReadBack` | EqApoConfig.cpp:109-115 | on the lines read, after lines that reload without error and for a trimmed file name: the appended `#Include:` line reloads without error as one more disabled profile after the existing ones |
| `EqApoStore.CreateTwiceAppendsTwiceAsWritten` | EqApoConfig.cpp:111-115 | with the source's check, creating `X` twice appends `#Include: X.txt` twice and the reload lists it twice |
| `EqApoStore.AppendedLinesIncluded` | EqApoConfig.cpp:109-117 | on the lines read, after lines that reload without error and for a trimmed name: with the corrected check, the reload after creating a profile succeeds, keeps the profiles and preamp, adds at most one profile, and includes the file |
| `EqApoStore.AppendedTextIncluded` | EqApoConfig.cpp:105-117 | on the text of config.txt, after a reload of it without read, close or line error, when it is empty or ends in a newline, and for a trimmed name without a newline: the text the corrected check appends reloads without error, keeps the profiles and preamp, adds at most one profile, includes the file, and a second creation appends nothing |
| `EqApoStore.AppendedLinesNoLineBreak` | EqApoConfig.cpp:109 | a name without a newline gives an appended line without one |
| `EqApoStore.CreateTwiceAppendsOnce` | EqApoConfig.cpp:111-115 | on the lines read, after lines that reload without error and for a trimmed name: with the corrected check, the reload after creating a profile succeeds, and creating it again appends nothing |
| `EqApoStore.EqApoConfig.constructor` | EqApoConfig.h:36-37 | a new object holds no profiles and the default preamp |
| `EqApoStore.EqApoConfig.ConfigFolder` | EqApoConfig.cpp:71-74 | the folder is `C:/Program Files/EqualizerAPO/config` |
| `EqApoStore.EqApoConfig.Profiles` | EqApoConfig.cpp:76-79 | the stored profiles |
| `EqApoStore.EqApoConfig.Preamp` | EqApoConfig.cpp:81-84 | the stored preamp state |
| `EqApoStore.EqApoConfig.ReloadConfig` | EqApoConfig.cpp:20-69 | the new state and status are `ReloadOutcome` of the file's text cut into lines: cleared first; open failure names the path; stops at the first bad line; read and close errors checked last |
| `EqApoStore.EqApoConfig.SetProfileEnabled` | EqApoConfig.cpp:123-126 | only the flag of profile `index` changes |
| `EqApoStore.EqApoConfig.SetPreampGain` | EqApoConfig.cpp:128-132 | the preamp becomes the given gain and flag; the profiles do not change |
| `EqApoStore.EqApoConfig.SaveState` | EqApoConfig.cpp:134-160 | when an open attempt succeeds, the text written is the `Render` lines of the state, each ending in a newline, and a failed close is reported; otherwise nothing is written |
| `EqApoStore.EqApoConfig.CreateNewProfile` | EqApoConfig.cpp:86-121 | each error in source order; the text appended is that of `AppendedLines`, the line ending in a newline; success returns `folder + "/" + fileName` |
| `EqApoStore.RenderAfterSetProfileEnabled` | EqApoConfig.cpp:123-126 | toggling a profile changes only that profile's line of the saved file |
| `EqApoStore.RenderAfterSetPreamp` | EqApoConfig.cpp:128-132 | setting the preamp changes only the first line of the saved file |
| `EqApoStore.SaveThenReload` | EqApoConfig.cpp:134-160 | the saved text, reloaded, restores the state when names are trimmed and hold no newline and the gain reads back |
| `EqApoStore.ReloadedStateSurvivesSave` | EqApoConfig.cpp:20-69 | any reloaded state, with one profile toggled, survives a save and a reload with `ParseGainText` |

## Left out

- File I/O is replaced by the outcomes it would have: `ConfigFile` for the read, and functions or flags for opens, writes and closes. `QThread::msleep(20)` between open attempts is not modelled.
- Error messages become `ConfigError` constructors. The open-for-reading error keeps the path. The text of `errorString()` is not modelled.
- UTF-8 and Latin-1 encoding are not modelled. The file is a `string`; `SplitLines` cuts it at `'\n'`. The model keeps every carriage return, while reading in `QIODevice::Text` mode drops every one of them. The two agree only on a carriage return at the start or end of a line, which `trimmed()` removes; one inside a line, as in `Include: a\rb`, is kept by the model (the name `a\rb`) and dropped by the source (the name `ab`).
- EqApoStore.AppendedIncludeReadBack: stated on the lines read, not on the text. `AppendedTextIncluded` carries the result over to the text, for a name without a newline.
- EqApoStore.AppendedLinesIncluded: stated on the lines read. For a name holding a newline, such as `a\nb`, the appended text is cut into two lines by the reload, which then fails at the second one; `AppendedTextIncluded` therefore requires a name without a newline. A file name cannot hold one on Windows, but the model does not tie `createSucceeds` to the name.
- EqApoStore.CreateTwiceAppendsOnce: stated on the lines read; on the text, for a name holding a newline, the line is appended again, for the reason above.
- EqApoStore.AppendedTextIncluded: requires config.txt to be empty or to end with a newline, as every save leaves it, and a name without a newline.
- EqApoStore.SaveThenReload: requires profile names without a newline. A name holding one is written across two lines, and the reload does not give it back; the model does not describe what it gives instead.
- A read error part-way through the file is modelled as the lines read before it, followed by the stream's error flag.
- An append to a `config.txt` whose last line has no newline would join that line. The lemmas on lines take the appended line as a new line, and `AppendedTextIncluded` requires a file that ends with a newline. The save always ends each line with a newline.
- Whitespace and case folding are ASCII only. `QString` also treats the other Unicode spaces and case pairs.
- `QString::toDouble` is the `GainParser` parameter. `ParseGainText` stands in for it only on the numbers the save writes and on whole numbers; other forms `toDouble` accepts, such as exponents or a leading `+`, are not modelled. A gain is a whole number of tenths, so a line such as `Preamp: -3.25 dB`, which `toDouble` reads as -3.25, has no exact counterpart: a `GainParser` can only map it to a nearby tenth or reject it.
- EqApoStore.EqApoConfig.SetPreampGain: takes the gain in tenths of a decibel. A double finer than a tenth, which the save rounds to one decimal, is not modelled.
- EqApoStore.EqApoConfig.CreateNewProfile: checks for an existing include against the normalised file name, not the raw name the source uses (see Findings). The empty profile file the source creates is reported by `created`, not modelled as a file.
- The window in MainWindow.cpp is not part of this model. It shows the state, calls the setters, saves, and reloads after a profile is created.
- main.cpp is not part of this model. It is an older standalone window that does not use `EqApoConfig`: it has its own reader (`loadConfig`) and writer (`applyChanges`) of config.txt, and it cannot create profiles.
- EqApoStore.EqApoConfig.Profiles: returns the profiles as a value. The source's `profiles()` returns a `const` reference to the stored vector; no caller relies on the aliasing, so the model drops it.

## Findings

| source | as written | input that shows it | evidently intended | confidence | as-written member | corrected member |
|---|---|---|---|---|---|---|
| EqApoConfig.cpp:111 | each loaded profile name is compared with `name` as typed, but the line appended includes `fileName` (`name` plus `.txt`) | empty config.txt; `createNewProfile("X")`, reload, `createNewProfile("X")` again: the check compares `X.txt` with `X`, `#Include: X.txt` is appended twice and the profile is listed twice | compare with `fileName`, so a file is included once | medium, not executed | `EqApoStore.CreateTwiceAppendsTwiceAsWritten` | `EqApoStore.CreateTwiceAppendsOnce` |
