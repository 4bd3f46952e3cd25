# BicFunctions field-mutation engine in Dafny

BicFunctions edits a Neverwinter Nights 2 character file (a `.bic` file, a GFF
tree). It opens the file named first on the command line and runs the
`<operation> <parameter1> <parameter2>` triples that follow, one after another,
on the same tree. If no exception escapes, it saves the tree back. The
operations set an ability score, a skill rank, the head, hair, wing and tail
appearance bytes, and the hair, head and body colour tints. They also copy the
head colour onto the body (`Retint`).

The model has these modules:

- `Wrappers` holds `Option`.
- `Codec` models `Convert.ToByte` on decimal strings. It also models the
  27-character colour string: nine 3-digit fields, r g b for each of the
  records "1", "2" and "3".
- `Gff` models the field tree: a top-level struct is a `map<string, Field>`,
  and a field is a byte, a list of structs, a struct, or something else. It
  covers reading a path, assigning a byte and `GetStructSafe` (`Ensure`), plus
  a run of assignments inside one `try` (`ApplyWrites`).
- `Commands` gives each operation as a pure function. It maps the tree before
  to an `Effect`: either `Done(tree after, messages logged)` or `Crash`.
  `Crash` stands for an exception thrown outside every `try`, which ends the
  process before the save. The module also has the dispatch of one triple
  (`Exec`), the batch (`RunCommands`) and `Main` (`Run`).
- `Engine` holds the in-place program. `Engine.Document` owns the tree as a
  mutable field, and its methods change it the way `Program.cs` does: the same
  steps in the same order. The nine field conversions of a colour string are
  one `Codec.ParseTint` call, and each tint command's assignments run record
  by record through helper methods. Each method is proved to leave exactly the
  tree, and return exactly the messages, that the `Commands` function of the
  same name gives. `Engine.Run` is the `for` loop of `Main`.
- `Codec`, `Gff`, `Tints`, `ByteCommands` and `Batch` hold what is proved about
  those functions:
  - round trips of the colour codec
  - frame and idempotence lemmas for assignments and `GetStructSafe`
  - what each command writes, and that it touches nothing else
  - the non-atomic write phase
  - SetBaseSkillRank's 0-based index and its crash paths
  - the batch being sequential and stopping at a crash

The OEIShared GFF library is not part of this model. Its behaviour is assumed
to be:

- the indexer `s[k]` throws when `k` is absent;
- `ValueByte` and `ValueList` throw on a field of another type;
- `GetStructSafe(k)` returns the struct under `k`, creates and inserts an empty
  struct when `k` is absent, and throws when `k` holds a field that is not a
  struct.

One consequence, proved in `Gff.EnsureFails` and `Gff.EnsureCreatesEmpty`: a
`GetStructSafe` chain that fails creates nothing. Creation only happens below
labels that were absent, and a failure needs a label that is present.

The source's messages are modelled by their kind (`Commands.Diagnostic`).
Within one command, each kind stands for one of that command's `Log` calls.
`UpdateFailed` covers both a failed `GetStructSafe` chain and a failed
assignment, because both are caught by the same `catch`. Kinds such as
`InvalidNumber` are shared between commands whose messages differ only in
wording.

Behaviour of the program that the model keeps:

- A colour string must be at least 27 characters long; it need not be exactly 27. Characters
  after the 27th are never read (`Codec.TintIgnoresTail`).
- SetBaseSkillRank uses the skill number directly as a 0-based position in
  `SkillList`.
- Its messages always name "Invalid skill", because `ParseSkill` is called on
  the initial 0 before the parameter is converted.
- SetBodyTint and Retint always write alpha 0 (`bTintA` keeps its initial 0).
- SetHead, unlike SetHair, SetWing and SetTail, does not Retint.

## Model

| member | source | states |
|---|---|---|
| Codec.ParseFields | Program.cs:331-339 | the nine 3-character `Substring`s convert exactly when the string is long enough and every field is a decimal of at most 255; then field i is the value of characters 3i to 3i+2 |
| Codec.ParseTint | Program.cs:330-344 | a colour string shorter than 27 characters is rejected; an accepted one yields exactly nine channel values |
| Codec.ShowParses | Program.cs:138 | every byte written in decimal converts back to itself |
| Codec.Pad3Parses | Program.cs:331 | the three-digit zero-padded form of every byte is a valid colour field that converts back to that byte |
| Codec.Pad3Unique | Program.cs:331 | a valid three-character colour field is the zero-padded form of its value, so each channel has exactly one spelling |
| Codec.LeadingZeroParses | Program.cs:331 | a leading zero never changes what a field converts to |
| Codec.TintRoundTrip | Program.cs:330-344 | formatting nine bytes as a colour string and converting it gives back the same nine bytes |
| Codec.TintParsedIsCanonical | Program.cs:330-344 | an accepted colour string's first 27 characters are exactly the formatting of its values |
| Codec.TintIgnoresTail | Program.cs:330-344 | characters after the 27th never affect the conversion |
| Gff.PutGet | Program.cs:199 | an assignment through a path succeeds exactly when the path exists, and the field then reads back the new value |
| Gff.PutFrame | Program.cs:199 | an assignment leaves every path that diverges from it unchanged |
| Gff.SetByteGet | Program.cs:199 | a byte assignment succeeds exactly when the field exists and is a byte, and then reads back the assigned byte |
| Gff.SetByteFrame | Program.cs:351-359 | a byte assignment leaves every diverging path as it was |
| Gff.SetByteSame | Program.cs:351-359 | assigning the value a byte already holds leaves the tree unchanged |
| Gff.SetByteKeepsStructs | Program.cs:351-359 | a byte assignment never removes a struct |
| Gff.EnsureGet | Program.cs:348-350 | after a successful `GetStructSafe` chain, the whole path is a struct |
| Gff.EnsureExisting | Program.cs:348-350 | a `GetStructSafe` chain over structs that all exist changes nothing |
| Gff.EnsureFrame | Program.cs:348-350 | a `GetStructSafe` chain leaves every diverging path as it was |
| Gff.EnsureKeepsStructs | Program.cs:348-350 | a `GetStructSafe` chain never removes an existing struct |
| Gff.EnsureFails | Program.cs:348-350 | a `GetStructSafe` chain fails exactly when some prefix of the path holds a field that is not a struct |
| Gff.EnsureFresh | Program.cs:348-350 | on an empty struct every `GetStructSafe` chain succeeds |
| Gff.EnsureCreatesEmpty | Program.cs:348-350 | a struct that a chain had to create is empty |
| Gff.GetSnoc | Program.cs:351 | reading `record["r"]` is reading label r inside the struct at record's path, and nothing otherwise |
| Gff.ApplyWritesFrame | Program.cs:351-359 | a run of assignments leaves every path that diverges from all of them as it was |
| Gff.ApplyWritesKeepsStructs | Program.cs:351-359 | a run of assignments never removes a struct |
| Gff.ApplyWritesDone | Program.cs:351-359 | when a run of assignments to distinct fields completes, every field holds its assigned value |
| Gff.ApplyWritesStopsAtFailure | Program.cs:351-360 | a run that fails stopped at a first failing assignment k, after assignments 0 to k-1 took effect, and did nothing afterwards |
| Gff.ApplyWritesTwice | Program.cs:351-359 | repeating a run of assignments to distinct fields gives the same tree and outcome |
| Commands.WriteGroup | Program.cs:347-364 | the second `try` of a tint command never crashes and logs at most one message |
| Commands.Retint | Program.cs:511-551 | Retint never crashes and logs at most one message |
| Tints.RgbWritesIndependent | Program.cs:351-359 | no two of the nine colour assignments touch the same field or lie on each other's paths |
| Tints.ArgbWritesIndependent | Program.cs:446-457 | no two of the twelve body assignments touch the same field or lie on each other's paths |
| Tints.EnsureRecordsReach | Program.cs:348-350 | after the three chains succeed, records 1, 2 and 3 are structs; when they already were, the chains change nothing |
| Tints.EnsureRecordsTwice | Program.cs:348-350 | running the three chains again changes nothing |
| Tints.EnsureRecordsFrame | Program.cs:348-350 | the three chains leave every path that diverges from all three records as it was |
| Tints.WriteGroupDone | Program.cs:347-359 | when the write phase logs nothing, every assigned field holds its value |
| Tints.WriteGroupFrame | Program.cs:347-359 | the write phase leaves every path unrelated to the records and the assignments as it was |
| Tints.WriteGroupTwice | Program.cs:347-364 | running the write phase a second time gives the same tree and messages |
| Tints.WriteGroupNotAtomic | Program.cs:351-364 | when an assignment fails, the assignments before it stay written and are not rolled back |
| Tints.WriteGroupOutside | Program.cs:347-359 | the write phase leaves every top-level field other than the group's own as it was |
| Tints.TintValidatedFirst | Program.cs:328-344 | an invalid colour string is reported before anything is created or written |
| Tints.TintCommandsIgnoreTail | Program.cs:330-344 | the three tint commands ignore the characters after the 27th |
| Tints.RgbTintSetsChannels | Program.cs:322-367 | after SetHairTint or SetHeadTint logs nothing, channel ch of record k holds colour field 3k+ch |
| Tints.RgbTintOutside | Program.cs:322-367 | SetHairTint and SetHeadTint never crash, and change only their own top-level field (`Tint_Hair` or `Tint_Head`) |
| Tints.RgbTintOnlyChannels | Program.cs:351-359 | when the three records already exist, only their r, g and b are changed |
| Tints.RgbTintTwice | Program.cs:322-367 | SetHairTint and SetHeadTint are idempotent |
| Tints.BodyTintSetsRecords | Program.cs:417-464 | after SetBodyTint logs nothing, each body record has alpha 0 and channels from the colour string, and nothing outside `Tintable` changed |
| Tints.BodyTintOutside | Program.cs:417-464 | SetBodyTint never crashes and changes nothing outside `Tintable` |
| Tints.BodyTintOnlyChannels | Program.cs:443-457 | when the three body records already exist, SetBodyTint changes nothing but their twelve a, r, g, b leaves, inside `Tintable` too |
| Tints.HeadReadNeedsRecord | Program.cs:517-521 | a successful head read means head record 1 already existed, so the read created nothing |
| Tints.RetintCopiesHeadColour | Program.cs:511-551 | after Retint logs nothing, head record 1 existed with byte channels, each body record has alpha 0 and head record 1's r, g, b, and nothing outside `Tintable` changed |
| Tints.RetintOutside | Program.cs:511-551 | Retint changes nothing outside `Tintable` and `Tint_Head`, and nothing outside `Tintable` when head record 1 exists |
| Tints.RetintOnlyChannels | Program.cs:511-551 | when head record 1 and the three body records exist, Retint changes nothing but the twelve body channel leaves |
| Tints.RetintTwice | Program.cs:511-551 | Retint is idempotent |
| Tints.ResetBodyTintCopiesHead | Program.cs:467-508 | after ResetBodyTint logs nothing, each body record holds head record 1's a, r, g, b, and nothing outside `Tintable` changed |
| Tints.ResetBodyTintOnlyChannels | Program.cs:467-508 | when head record 1 and the three body records exist, ResetBodyTint changes nothing but the twelve body channel leaves |
| ByteCommands.SkillRankOutcome | Program.cs:129-178 | SetBaseSkillRank writes the rank exactly when both numbers convert and entry `skill` (from 0) has a byte `Rank`, changing only that field. Otherwise it changes nothing and logs the message of the first failed check: bad skill number, bad rank, no `SkillList`, skill past the list's end, or entry without `Rank`. It crashes exactly when `SkillList` is not a list or that `Rank` is not a byte |
| ByteCommands.SkillMessagesNameInvalidSkill | Program.cs:131-177 | every skill message names "Invalid skill" and repeats the rank as given |
| ByteCommands.SkillNames | Program.cs:94-126 | ParseSkill names 1 to 27 and 29, and nothing else |
| ByteCommands.SkillPastEndOfList | Program.cs:159-165 | skill 250 on a one-entry list logs the unknown-skill message and changes nothing |
| ByteCommands.SkillNumberCountsFromZero | Program.cs:160-168 | skill number 5 writes the sixth entry of `SkillList` |
| ByteCommands.AbilityScoreOutcome | Program.cs:181-210 | SetAbilityScore writes the converted score into the named byte field; otherwise it logs the bad number, the missing field or the failed update, and the tree is unchanged |
| ByteCommands.RootByteOutcome | Program.cs:213-236 | the appearance assignment writes the converted byte when the field is a byte; otherwise one message and no change |
| ByteCommands.SetHeadOnlyHead | Program.cs:213-236 | SetHead never crashes, changes only `Appearance_Head`, and does not Retint |
| ByteCommands.AppearanceRetintsAfterWrite | Program.cs:239-264 | SetHair, SetWing and SetTail run Retint exactly when their assignment succeeded |
| ByteCommands.AppearanceWritesAndRetints | Program.cs:239-264 | after SetHair, SetWing or SetTail logs nothing, the field holds the new byte, the body has the head's colour with alpha 0, and nothing else outside `Tintable` changed |
| ByteCommands.AppearanceOnlyChannels | Program.cs:239-264 | when head record 1 and the body records exist, SetHair, SetWing and SetTail change nothing but their own field and the twelve body channel leaves |
| Batch.RunCommandsAppend | Program.cs:56-68 | running a batch split in two is running the first part, then the second part on its tree, with the messages concatenated |
| Batch.RunCommandsCons | Program.cs:56-68 | the first command runs first and the rest run on its result |
| Batch.CrashEndsBatch | Program.cs:56-68 | nothing runs after an uncaught exception |
| Batch.UnknownCommandSkipped | Program.cs:67 | an unknown operation logs one message and leaves the tree to the rest of the batch |
| Batch.UnusedParametersIgnored | Program.cs:57-66 | single-parameter operations ignore the second parameter, and Retint ignores both |
| Batch.RunOutcome | Program.cs:31-72 | the command line is rejected exactly when its length is not one more than a multiple of three; the tree is saved exactly when the file opened and nothing crashed, and then it is the result of every command in order |
| Batch.SplitThenFlatten | Program.cs:55-66 | splitting a well-formed command line into triples and laying them out again gives back everything after the file name, so no argument is dropped or reordered |
| Batch.FlattenThenSplit | Program.cs:38-66 | any sequence of commands, laid out after a file name, passes the arity check and splits back into the same commands |
| Batch.FileNameAlone | Program.cs:31-72 | a file name alone saves the file unchanged |
| Batch.UnknownThenSetHead | Program.cs:56-71 | an unknown operation followed by `SetHead 7` logs one message and saves head 7 |
| Commands.ArityCheck | Program.cs:38 | C#'s truncating `%` accepts exactly the lengths 1, 4, 7, …; an empty command line is rejected |
| Engine.Document.constructor | Program.cs:45-52 | a document holds the tree that was loaded |
| Engine.Document.GetStructSafe | Program.cs:348 | the in-place `GetStructSafe` chain follows `Gff.Ensure` and leaves the tree unchanged when it fails |
| Engine.Document.ValueByte | Program.cs:475-478 | a byte read returns the byte at the path or fails |
| Engine.Document.Assign | Program.cs:351 | one in-place byte assignment is the first step of the assignment run |
| Engine.Document.GetRecords | Program.cs:348-350 | the three in-place chains leave the tree and outcome that `Commands.EnsureRecords` gives |
| Engine.Document.AssignRgb | Program.cs:351-359 | the nine in-place assignments leave the tree and outcome of `Gff.ApplyWrites` on `Commands.RgbWrites` |
| Engine.Document.AssignArgb | Program.cs:446-457 | the twelve in-place assignments leave the tree and outcome of `Gff.ApplyWrites` on `Commands.ArgbWrites` |
| Engine.Document.SetBaseSkillRank | Program.cs:129-178 | the method crashes exactly when `Commands.SetBaseSkillRank` does; otherwise it leaves that function's tree and messages |
| Engine.Document.SetAbilityScore | Program.cs:181-210 | the tree afterwards and the messages are those of `Commands.SetAbilityScore` |
| Engine.Document.SetHead | Program.cs:213-236 | the tree afterwards and the messages are those of `Commands.SetHead` |
| Engine.Document.SetHair | Program.cs:239-264 | the tree afterwards and the messages are those of `Commands.SetHair` |
| Engine.Document.SetWing | Program.cs:267-291 | the tree afterwards and the messages are those of `Commands.SetWing` |
| Engine.Document.SetTail | Program.cs:294-319 | the tree afterwards and the messages are those of `Commands.SetTail` |
| Engine.Document.SetHairTint | Program.cs:322-367 | the tree afterwards and the messages are those of `Commands.SetHairTint` |
| Engine.Document.SetHeadTint | Program.cs:370-414 | the tree afterwards and the messages are those of `Commands.SetHeadTint` |
| Engine.Document.SetBodyTint | Program.cs:417-464 | the tree afterwards and the messages are those of `Commands.SetBodyTint` |
| Engine.Document.Retint | Program.cs:511-551 | the tree afterwards and the messages are those of `Commands.Retint` |
| Engine.Document.ResetBodyTint | Program.cs:467-508 | the tree afterwards and the messages are those of `Commands.ResetBodyTint` |
| Engine.Document.Exec | Program.cs:57-67 | one dispatched triple crashes exactly when `Commands.Exec` does, and otherwise leaves its tree and messages |
| Engine.Run | Program.cs:31-72 | the in-place `Main` loop ends in the outcome `Commands.Run` gives: usage error, unopenable file, crash, or the saved tree with every message |

## Left out

- `Log` (Program.cs:76-91) and the `Console.WriteLine` echoes of the written channels are I/O. Messages are returned as a list of kinds, not written to a file. The exact wording of each message is not modelled, including SetHair's copy-pasted "Head ID" text at Program.cs:248.
- Opening the file is the `loaded` parameter of `Run`, where `None` means `new GFFFile` threw. Saving is the `Saved` result. The GFF file format and `Save` are not modelled.
- The OEIShared GFF library is not part of this model. Its indexer, `ValueByte`, `ValueList` and `GetStructSafe` are modelled by the contracts stated above.
- Field types other than byte, list of structs and struct are a single opaque `Other` case.
- Codec.ParseByte: does not model the leading and trailing white space or the leading `+` that `Convert.ToByte` also accepts. Only non-empty strings of ASCII digits with a value of at most 255 convert.
- Commands.Retint: the head channels are read with `Convert.ToByte(object)`. This is modelled as a byte read, so a head channel stored as another numeric type or as a numeric string is treated as unreadable.
- The `uint` loop counter in `Main` is modelled as an unbounded index. Command lines long enough to wrap it around are not modelled.
- Engine.Document.Assign, Engine.Document.AssignRgbRecord and Engine.Document.AssignArgbRecord take the remaining assignment run as a ghost parameter. Their contracts are stated through it, not as a standalone tree update.
