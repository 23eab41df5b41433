# Intermediate combination in the WiX toolset core, modelled in Dafny

This project models three sequential pieces of the WiX toolset's
intermediate-combination pipeline and proves what they promise.

- **Field resolution** (`ResolveFieldsCommand.Execute`, module `ResolveFields`).
  The pass visits every present field of every tuple of every section, in that
  order. When delayed resolution is supported, it substitutes variables in
  non-empty String fields and records the fields whose resolution is delayed.
  Then, unless the messaging sink has already seen an error, it rewrites Path
  fields. A field with an embedded-file index gets an extraction path; a field
  with a logical path gets the file resolver's result. A resolver failure is
  logged as a message.
- **Library combination** (`Librarian.Combine` and `ResolveFilePathsToEmbed`,
  modules `Librarian` and `LibraryId`). It gives the library an id, calls the
  extensions' PreCombine and PostCombine hooks, and collates localizations.
  If an error was reported it stops; otherwise it turns resolvable Path fields
  into indices into the list of files to embed, stamps every section with the
  id, and builds and validates the library. A generated id is the base64 text
  (section 4 of RFC 4648) of 16 GUID bytes, with the `=` padding trimmed, `+`
  changed to `.` and `/` changed to `_`.
- **Tuple to row conversion**
  (`WindowsInstallerBackendHelper.TryAddTupleToOutputMatchingTableDefinitions`,
  module `WindowsInstallerBackend`). The first table definition named like the
  tuple's definition gets one new row. Its cells are copied from the tuple's
  fields position by position.

Layout:
- `wrappers.dfy` has `Option`.
- `data.dfy` holds sections, tuples, fields, field handles, messages, the
  messaging sink (`Messaging`) and `Intermediate`.
- `services.dfy` holds the collaborators as oracles: the variable resolver, the
  file resolver and the embedded-file extractor.
- `traversal.dfy` is the section-then-tuple-then-field traversal. Both passes
  are instances of it. Its lemmas give a field's outcome, carry a property of
  the running state forward, and describe append-only outputs.
- `resolve_fields.dfy`, `library_id.dfy`, `librarian.dfy` and
  `backend_helper.dfy` model the three pieces.

Each imperative loop in the source is a method with a loop. Its `ensures` ties
the result to a specification function built on the traversal, and the lemmas
about those functions state the properties.

Notes on what the code does (the model follows it as written):
- The variable resolver is always called with `false` as its third argument,
  whatever the delayed-resolution setting.
- The error check before path resolution reads the global error flag. After
  any error, path resolution is skipped for every later field, not only for
  the field that failed. This includes errors reported before the pass started.
- Variable resolution runs only on String fields. So `isDefault` is always true
  when a Path field is reached, and an embedded index always wins over a
  logical path.
- Storing a string into a Path field (`field.Set(string)`) leaves a Path value
  with that path and no embedded index or base URI (`Data.PathFromString`).
  This is how WixToolset.Data behaves; WixToolset.Data is not part of this model.

## Model

| member | source | states |
|---|---|---|
| `ResolveFields.ResolveFieldsCommand.Execute` | src/WixToolset.Core/Bind/ResolveFieldsCommand.cs:37-226 | The sections, message log, error flag and extractor registrations after the pass are the whole-pass specification applied to the old state; `DelayedFields` is null when delayed resolution is not supported and the delayed list otherwise |
| `ResolveFields.ResolveFieldsCommand.ResolveSection` | src/WixToolset.Core/Bind/ResolveFieldsCommand.cs:45-160 | The tuple loop of one section yields exactly the traversal's section visit, for the tuples and for the state |
| `ResolveFields.ResolveFieldsCommand.ResolveOneField` | src/WixToolset.Core/Bind/ResolveFieldsCommand.cs:49-157 | One field's variable resolution and then, unless the error flag is set, its path resolution, equal to the pure per-field step; a null field is left alone |
| `ResolveFields.ResolveFieldsCommand.ResolveRow` | src/WixToolset.Core/Bind/ResolveFieldsCommand.cs:47-159 | The field loop of one tuple yields the traversal's tuple visit: the fields are resolved in order, each from the state the previous one left |
| `ResolveFields.ResolveFieldsCommand.ResolveVariables` | src/WixToolset.Core/Bind/ResolveFieldsCommand.cs:54-79 | The variable step: isDefault starts true; the resolver is asked with `false` only for non-empty String fields when delayed resolution is supported; the field is overwritten only on UpdatedValue; the handle is appended only on DelayedResolve |
| `ResolveFields.ResolveFieldsCommand.ResolvePath` | src/WixToolset.Core/Bind/ResolveFieldsCommand.cs:88-158 | The path step: embedded index with isDefault gives the extractor's path; otherwise a logical path is resolved in the Normal stage unless a patch is rebased; a WixException is written as a message and the field kept |
| `ResolveFields.ResolveAll` | src/WixToolset.Core/Bind/ResolveFieldsCommand.cs:43-47 | The pass changes field values only: same sections, tuples, definitions and field counts |
| `ResolveFields.FieldOutcome` | src/WixToolset.Core/Bind/ResolveFieldsCommand.cs:43-159 | Each field after the pass is its own visit, made in the state the pass had reached at that field |
| `ResolveFields.NullFieldsStayNull` | src/WixToolset.Core/Bind/ResolveFieldsCommand.cs:49-52 | A null field is still null after the pass |
| `ResolveFields.OtherFieldsUnchanged` | src/WixToolset.Core/Bind/ResolveFieldsCommand.cs:60-88 | Fields that are neither String nor Path are never changed |
| `ResolveFields.StringFieldOutcome` | src/WixToolset.Core/Bind/ResolveFieldsCommand.cs:57-69 | A String field changes exactly when delayed resolution is supported, its text is non-empty and the resolver (asked with `false`) reports UpdatedValue; it then holds the resolver's value |
| `ResolveFields.PathFieldOutcome` | src/WixToolset.Core/Bind/ResolveFieldsCommand.cs:82-131 | A Path field is unchanged once an error was seen; with an embedded index it becomes the extraction path; with a logical path it becomes the resolved path, or stays as it was on failure or rebasing |
| `ResolveFields.ErrorIsSticky` | src/WixToolset.Core/Bind/ResolveFieldsCommand.cs:82-85 | No field visit clears the error flag |
| `ResolveFields.ErrorSkipsLaterPathFields` | src/WixToolset.Core/Bind/ResolveFieldsCommand.cs:82-85 | After an error at one field, every Path field visited later keeps its value |
| `ResolveFields.EarlierErrorSkipsAllPathFields` | src/WixToolset.Core/Bind/ResolveFieldsCommand.cs:82-85 | If an error was reported before the pass, no Path field changes and nothing is registered for extraction |
| `ResolveFields.MessagesOnlyAppended` | src/WixToolset.Core/Bind/ResolveFieldsCommand.cs:155-158 | The pass only appends to the message log and never clears the error flag |
| `ResolveFields.ExtractionRegistered` | src/WixToolset.Core/Bind/ResolveFieldsCommand.cs:101-107 | An extracted field's (base URI, index, intermediate folder) registration stays in the extractor's list at the position it was made |
| `ResolveFields.FailedResolutionStep` | src/WixToolset.Core/Bind/ResolveFieldsCommand.cs:155-158 | A failed file resolution appends exactly the exception's error to the log, sets the error flag and keeps the field's value |
| `ResolveFields.FileResolutionErrorReported` | src/WixToolset.Core/Bind/ResolveFieldsCommand.cs:123-158 | A failed file resolution's error is in the final log at the position the pass had reached, the error flag is set at the end, the failing field keeps its value, and so does every later Path field |
| `ResolveFields.FieldDelays` | src/WixToolset.Core/Bind/ResolveFieldsCommand.cs:71-74 | One field visit appends its own handle to the delayed list exactly when its resolution reports DelayedResolve |
| `ResolveFields.DelayedFieldsInOrder` | src/WixToolset.Core/Bind/ResolveFieldsCommand.cs:39-74 | The delayed list holds exactly the fields whose resolution reported DelayedResolve, each once, in section-then-tuple-then-field order; it is empty when delayed resolution is not supported |
| `ResolveFields.OnlyNonDelayedCallsMatter` | src/WixToolset.Core/Bind/ResolveFieldsCommand.cs:65-129 | The pass depends only on the variable resolver's answers with `false` and the file resolver's answers in the Normal stage |
| `Services.ExtractEmbeddedFiles.AddEmbeddedFileIndex` | src/WixToolset.Core/Bind/ResolveFieldsCommand.cs:103 | Each call records its registration and returns the path the extractor chooses from the earlier registrations |
| `Data.Messaging.Write` | src/WixToolset.Core/Bind/ResolveFieldsCommand.cs:157 | Writing appends to the log and sets the error flag when the message is an error |
| `LibraryId.DecodeEncode` | src/WixToolset.Core/Librarian.cs:39 | Base64 decoding inverts the encoding for every byte sequence |
| `LibraryId.EncodeShape` | src/WixToolset.Core/Librarian.cs:39 | An encoding is base64 digits followed by exactly the padding its length calls for |
| `LibraryId.TrimEnd` | src/WixToolset.Core/Librarian.cs:39 | Trimming leaves a prefix that does not end in the character, and only that character was removed |
| `LibraryId.Replace` | src/WixToolset.Core/Librarian.cs:39 | Replacing keeps the length and changes exactly the occurrences of the character |
| `LibraryId.TrimmedEncoding` | src/WixToolset.Core/Librarian.cs:39 | Trimming `=` from the encoding of 16 bytes removes exactly the two padding characters and leaves 22 digits |
| `LibraryId.Encode` | src/WixToolset.Core/Librarian.cs:39 | `Convert.ToBase64String` per section 4 of RFC 4648: four characters for every three bytes or part of three; its inverse is stated by `DecodeEncode` |
| `LibraryId.EncodeLibraryId` | src/WixToolset.Core/Librarian.cs:37-40 | A generated id has 22 characters, each a letter, a digit, `.` or `_`; `LibraryIdRoundTrip` gives its inverse |
| `LibraryId.LibraryIdRoundTrip` | src/WixToolset.Core/Librarian.cs:39 | Reversing the two replacements and restoring the padding decodes a generated id back to the GUID bytes |
| `LibraryId.LibraryIdInjective` | src/WixToolset.Core/Librarian.cs:39 | Distinct GUIDs give distinct ids |
| `Librarian.Librarian.Combine` | src/WixToolset.Core/Librarian.cs:35-80 | A non-empty id is kept and a missing one generated. PreCombine then PostCombine run on every extension, in order; PostCombine gets null after the early return. After a collation error nothing is embedded or stamped. Otherwise the library holds the embedded, stamped sections, the collated localizations and the embed list, and is validated. The result is null exactly when the error flag is set at the end |
| `Librarian.Librarian.CallExtensions` | src/WixToolset.Core/Librarian.cs:42-45 | The hook calls are made one after another, in extension order |
| `Librarian.Librarian.BuildLibrary` | src/WixToolset.Core/Librarian.cs:60-69 | The built library has the context's id, every section stamped with it after embedding, the collated localizations and the embed list; validation's messages are appended |
| `Librarian.StampSections` | src/WixToolset.Core/Librarian.cs:62-65 | Every section gets the library id and nothing else about it changes |
| `Librarian.Concat` | src/WixToolset.Core/Librarian.cs:50 | `SelectMany` over the intermediates: a section is in the result exactly when it is a section of one of the intermediates |
| `Librarian.ConcatContains` | src/WixToolset.Core/Librarian.cs:50 | Flattening the intermediates' sections keeps every section of every intermediate, in order |
| `Librarian.Librarian.ResolveFilePathsToEmbed` | src/WixToolset.Core/Librarian.cs:102-142 | With BindFiles set, the sections, messages and embed list are the embedding pass applied to the old state; without it the list is empty and nothing changes |
| `Librarian.Librarian.EmbedSection` | src/WixToolset.Core/Librarian.cs:113-138 | The tuple loop of one section yields the traversal's section visit |
| `Librarian.Librarian.EmbedRow` | src/WixToolset.Core/Librarian.cs:115-137 | The field loop of one tuple yields the traversal's tuple visit |
| `Librarian.Librarian.EmbedPathField` | src/WixToolset.Core/Librarian.cs:117-136 | One Path field: variables in its path are resolved with `false`, then either it gets the next embed index and its file is appended, or FileNotFound is written |
| `Librarian.FileToEmbed` | src/WixToolset.Core/Librarian.cs:121-125 | A file is embedded only when the resolver answers non-empty text |
| `Librarian.EmbedAll` | src/WixToolset.Core/Librarian.cs:113-138 | The embedding pass changes field values only |
| `Librarian.FieldEmbeds` | src/WixToolset.Core/Librarian.cs:125-131 | One field visit appends its file to the embed list exactly when it resolves |
| `Librarian.EmbedListInOrder` | src/WixToolset.Core/Librarian.cs:113-131 | The embed list grows by exactly the files of the resolvable Path fields, in section-then-tuple-then-field order |
| `Librarian.NonPathFieldsUnchanged` | src/WixToolset.Core/Librarian.cs:115 | Null fields and fields that are not Path fields are never changed |
| `Librarian.EmbeddedFieldIndex` | src/WixToolset.Core/Librarian.cs:125-131 | A resolvable Path field becomes `EmbeddedFileIndex = k` and nothing else, where entry k of the final embed list is its file |
| `Librarian.EmbeddedIndicesIncrease` | src/WixToolset.Core/Librarian.cs:128-131 | Of two embedded fields, the one visited first gets the smaller index |
| `Librarian.UnresolvedFileReported` | src/WixToolset.Core/Librarian.cs:132-135 | An unresolvable Path field keeps its value; FileNotFound with the original path and the definition name is logged and the error flag is set |
| `Librarian.EmbedMessagesOnlyAppended` | src/WixToolset.Core/Librarian.cs:113-138 | The embedding pass only appends to the message log and never clears the error flag |
| `WindowsInstallerBackend.FirstNamed` | src/WixToolset.Core/ExtensibilityServices/WindowsInstallerBackendHelper.cs:22 | There is no index exactly when no definition has the name; otherwise the index is of a definition with the name and no earlier one has it |
| `WindowsInstallerBackend.FillRow` | src/WixToolset.Core/ExtensibilityServices/WindowsInstallerBackendHelper.cs:30-48 | The row has one cell per column; cell i below both counts is tuple field i read as a number under a Number column and as text otherwise; cells past the last field are unset |
| `WindowsInstallerBackend.FilledRowIsUnique` | src/WixToolset.Core/ExtensibilityServices/WindowsInstallerBackendHelper.cs:31-48 | The cells are determined by the tuple, the definition and the conversions |
| `WindowsInstallerBackend.ExtraFieldsDropped` | src/WixToolset.Core/ExtensibilityServices/WindowsInstallerBackendHelper.cs:31-34 | Tuple fields past the last column do not reach the row |
| `WindowsInstallerBackend.CellComesFromSameField` | src/WixToolset.Core/ExtensibilityServices/WindowsInstallerBackendHelper.cs:31-46 | Tuples that agree on field i give rows that agree on cell i: no reordering |
| `WindowsInstallerBackend.Output.AddRow` | src/WixToolset.Core/ExtensibilityServices/WindowsInstallerBackendHelper.cs:29-30 | Exactly one row is appended to the output; nothing else changes |
| `WindowsInstallerBackend.TryAddTupleToOutputMatchingTableDefinitions` | src/WixToolset.Core/ExtensibilityServices/WindowsInstallerBackendHelper.cs:20-51 | Returns false and leaves the output alone exactly when no definition has the tuple's definition name; otherwise returns true after adding one row of the first such definition, filled from the tuple |

## Left out

- The collaborators are oracles, and their internals are not part of this model:
  - the variable resolver (`IVariableResolver`, `WixVariableResolver`);
  - the file resolver (bind-path search order, `Resolve` and `ResolveFile`);
  - the choice of extraction path in `ExtractEmbeddedFiles.AddEmbeddedFileIndex`. It is a function of the earlier registrations, with no deduplication rule assumed;
  - `CollateLocalizationsCommand`;
  - `FindEntrySectionAndLoadSymbolsCommand`, which is all `Validate` does;
  - the tuple's `AsNumber` and `AsString` conversions.
- `Output.EnsureTable` and `Table.CreateRow`: the output is modelled as the sequence of rows added, each with its table definition. Which table object holds a row, and whether EnsureTable creates it, are not modelled.
- `Guid.NewGuid()`: the 16 GUID bytes are an input to `Combine`.
- Combine: the PreCombine hooks receive the mutable library context, and the code reads the context's `Intermediates`, `LibraryId` and `BindFiles` after they return. The model records each hook call only as an entry in a call log, so it assumes the hooks leave the context unchanged. Sections, id and BindFiles are taken from the context as it was after id generation and before the hooks. A hook that rewrites the context is not modelled.
- Aliasing is not modelled. Sections, tuples and fields are values, and the passes return new sections. In the source, stamping and embedding also change the very section objects the context's intermediates hold; the model does not show that change on the context. A `DelayedField` is a position (section, tuple, field), not a reference to the row and field objects.
- Exceptions other than the `WixException` that file resolution throws are not modelled. Combine's `finally` is modelled for its early return only.
- A present Path field whose value is null (`AsPath()` returns null) is not modelled. Every present Path field holds a Path value, so the null test of `ResolveFilePathsToEmbed` always passes.
- The `#if REVISIT_FOR_PATCHING` and `#if false` code of ResolveFieldsCommand.cs is compiled out and is left out (patch rebasing, delete-operation skipping, the local `ResolveFile`).
- The commented-out reference resolution in `Validate` is left out.
- The messaging sink is reduced to an append-only message log and an error flag. Message formatting is not modelled.
- UpdateControlTextCommand.cs and LinkContext.cs are not part of this model.
