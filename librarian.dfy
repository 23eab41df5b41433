/**
 * Combining intermediates into a library (Librarian.Combine): give the
 * context a library id when it has none, call every extension's
 * PreCombine, collate the localizations, stop if an error has been
 * reported, otherwise turn every resolvable Path field into an index into
 * the list of files to embed (when BindFiles is set), stamp every section
 * with the id, build and validate the library, and call every extension's
 * PostCombine whatever happened.
 */
module Librarian {
  import opened Wrappers
  import opened Data
  import opened Services
  import opened Traversal
  import opened LibraryId

  // ---------------------------------------------------------------------
  // The embedding pass (ResolveFilePathsToEmbed), as a traversal.

  /** The collaborators the embedding pass consults. */
  datatype EmbedConfig = EmbedConfig(variableResolver: VariableResolver, fileResolver: FileResolver)

  /** What the embedding pass changes besides the fields: the messaging sink and the embed list. */
  datatype EmbedState = EmbedState(messages: seq<Message>, encounteredError: bool, embedFilePaths: seq<string>)
  {
    function Write(ms: seq<Message>): EmbedState {
      this.(messages := messages + ms, encounteredError := encounteredError || AnyError(ms))
    }
  }

  /** A Path field that holds only an index into the library's embedded files. */
  function EmbeddedIndexField(index: nat): Field {
    PathField(PathValue(None, Some(index), None))
  }

  /**
   * The file a Path value is embedded from: its path, with variables
   * resolved, given to the file resolver; `None` when the resolver
   * answers null or empty text.
   */
  function FileToEmbed(config: EmbedConfig, line: Option<SourceLineNumber>, definition: TupleDefinition, p: PathValue)
    : (file: Option<string>)
    ensures file.Some? ==> file.value != ""
  {
    var resolution := config.variableResolver(line, p.path, false);
    var file := config.fileResolver.resolve(line, definition, resolution.value);
    if file.Some? && file.value != "" then file else None
  }

  /** One field: Path fields whose file resolves get the next index, the others are reported. */
  function EmbedField(config: EmbedConfig, st: EmbedState, h: FieldHandle, definition: TupleDefinition,
                      line: Option<SourceLineNumber>, field: Option<Field>): Visited<EmbedState>
  {
    if field.None? || !field.value.PathField? then Visited(field, st)
    else
      var p := field.value.pathValue;
      var written := st.Write(config.variableResolver(line, p.path, false).messages);
      match FileToEmbed(config, line, definition, p)
      case Some(file) =>
        Visited(Some(EmbeddedIndexField(|written.embedFilePaths|)),
                written.(embedFilePaths := written.embedFilePaths + [file]))
      case None =>
        Visited(field, written.Write([FileNotFound(line, p.path, definition.name)]))
  }

  function EmbedVisitor(config: EmbedConfig): FieldVisitor<EmbedState> {
    (st, h, d, l, f) => EmbedField(config, st, h, d, l, f)
  }

  /** The whole embedding pass over the sections from a given state. */
  function EmbedAll(config: EmbedConfig, st: EmbedState, ss: seq<IntermediateSection>)
    : (r: (seq<IntermediateSection>, EmbedState))
    ensures SameShape(ss, r.0)
  {
    VisitAll(EmbedVisitor(config), st, ss)
  }

  /** The state the embedding pass is in when it reaches the field at h. */
  function EmbedStateAt(config: EmbedConfig, st: EmbedState, ss: seq<IntermediateSection>, h: FieldHandle): EmbedState
    requires ValidHandle(ss, h)
  {
    StateAt(EmbedVisitor(config), st, ss, h)
  }

  /** The file the field at h contributes to the embed list, if any. */
  function FileEmitter(config: EmbedConfig): FieldEmitter<string> {
    (h: FieldHandle, d: TupleDefinition, l: Option<SourceLineNumber>, f: Option<Field>) =>
      if f.Some? && f.value.PathField? && FileToEmbed(config, l, d, f.value.pathValue).Some?
      then [FileToEmbed(config, l, d, f.value.pathValue).value]
      else []
  }

  /** Whether the field at h is a Path field whose file resolves. */
  predicate EmbeddedAt(config: EmbedConfig, ss: seq<IntermediateSection>, h: FieldHandle)
    requires ValidHandle(ss, h)
  {
    && FieldAt(ss, h).Some? && FieldAt(ss, h).value.PathField?
    && FileToEmbed(config, TupleAt(ss, h).sourceLineNumbers, TupleAt(ss, h).definition, FieldAt(ss, h).value.pathValue).Some?
  }

  lemma FieldEmbeds(config: EmbedConfig, a: EmbedState, h: FieldHandle, d: TupleDefinition,
                    l: Option<SourceLineNumber>, f: Option<Field>)
    ensures EmbedField(config, a, h, d, l, f).state.embedFilePaths == a.embedFilePaths + FileEmitter(config)(h, d, l, f)
  {
  }

  /**
   * The embed list grows by exactly the files of the resolvable Path
   * fields, in section-then-tuple-then-field order.
   */
  lemma EmbedListInOrder(config: EmbedConfig, st: EmbedState, ss: seq<IntermediateSection>)
    ensures EmbedAll(config, st, ss).1.embedFilePaths == st.embedFilePaths + Emitted(FileEmitter(config), ss)
  {
    var visit := EmbedVisitor(config);
    var out := (a: EmbedState) => a.embedFilePaths;
    var emit := FileEmitter(config);
    forall a, h, d, l, f ensures out(visit(a, h, d, l, f).state) == out(a) + emit(h, d, l, f) {
      FieldEmbeds(config, a, h, d, l, f);
    }
    AppendsEmitted(visit, out, emit, st, ss);
  }

  /** Fields that are not Path fields are never changed by the embedding pass. */
  lemma NonPathFieldsUnchanged(config: EmbedConfig, st: EmbedState, ss: seq<IntermediateSection>, h: FieldHandle)
    requires ValidHandle(ss, h)
    requires FieldAt(ss, h).None? || !FieldAt(ss, h).value.PathField?
    ensures ValidHandle(EmbedAll(config, st, ss).0, h)
    ensures FieldAt(EmbedAll(config, st, ss).0, h) == FieldAt(ss, h)
  {
    VisitedFieldAt(EmbedVisitor(config), st, ss, h);
  }

  /**
   * A Path field whose file resolves becomes the index the file has in
   * the final embed list: the length of the list when the pass reached it.
   */
  lemma EmbeddedFieldIndex(config: EmbedConfig, st: EmbedState, ss: seq<IntermediateSection>, h: FieldHandle)
    requires ValidHandle(ss, h) && EmbeddedAt(config, ss, h)
    ensures var k := |EmbedStateAt(config, st, ss, h).embedFilePaths|;
            var r := EmbedAll(config, st, ss);
            var tuple := TupleAt(ss, h);
            && ValidHandle(r.0, h)
            && FieldAt(r.0, h) == Some(EmbeddedIndexField(k))
            && k < |r.1.embedFilePaths|
            && Some(r.1.embedFilePaths[k]) == FileToEmbed(config, tuple.sourceLineNumbers, tuple.definition, FieldAt(ss, h).value.pathValue)
  {
    var visit := EmbedVisitor(config);
    VisitedFieldAt(visit, st, ss, h);
    var after := VisitAt(visit, st, ss, h).state.embedFilePaths;
    var P := (a: EmbedState) => after <= a.embedFilePaths;
    assert Preserves(visit, P);
    PreservedToEnd(visit, P, st, ss, h);
  }

  /** Of two embedded fields, the one visited first has the smaller index. */
  lemma EmbeddedIndicesIncrease(config: EmbedConfig, st: EmbedState, ss: seq<IntermediateSection>,
                                h: FieldHandle, h': FieldHandle)
    requires ValidHandle(ss, h) && ValidHandle(ss, h') && Precedes(h, h')
    requires EmbeddedAt(config, ss, h) && EmbeddedAt(config, ss, h')
    ensures |EmbedStateAt(config, st, ss, h).embedFilePaths| < |EmbedStateAt(config, st, ss, h').embedFilePaths|
  {
    var visit := EmbedVisitor(config);
    var n := |EmbedStateAt(config, st, ss, h).embedFilePaths| + 1;
    var P := (a: EmbedState) => n <= |a.embedFilePaths|;
    assert Preserves(visit, P);
    PreservedLater(visit, P, st, ss, h, h');
  }

  /**
   * A Path field whose file does not resolve keeps its value, and a
   * FileNotFound message carrying its original path is logged.
   */
  lemma UnresolvedFileReported(config: EmbedConfig, st: EmbedState, ss: seq<IntermediateSection>, h: FieldHandle)
    requires ValidHandle(ss, h) && FieldAt(ss, h).Some? && FieldAt(ss, h).value.PathField?
    requires !EmbeddedAt(config, ss, h)
    ensures var r := EmbedAll(config, st, ss);
            var tuple := TupleAt(ss, h);
            && ValidHandle(r.0, h)
            && FieldAt(r.0, h) == FieldAt(ss, h)
            && FileNotFound(tuple.sourceLineNumbers, FieldAt(ss, h).value.pathValue.path, tuple.definition.name) in r.1.messages
            && r.1.encounteredError
  {
    var visit := EmbedVisitor(config);
    VisitedFieldAt(visit, st, ss, h);
    var tuple := TupleAt(ss, h);
    var m := FileNotFound(tuple.sourceLineNumbers, FieldAt(ss, h).value.pathValue.path, tuple.definition.name);
    var after := VisitAt(visit, st, ss, h).state;
    assert m in after.messages && after.encounteredError;
    var P := (a: EmbedState) => m in a.messages && a.encounteredError;
    assert Preserves(visit, P);
    PreservedToEnd(visit, P, st, ss, h);
  }

  /** The embedding pass only appends to the message log and never clears the error flag. */
  lemma EmbedMessagesOnlyAppended(config: EmbedConfig, st: EmbedState, ss: seq<IntermediateSection>)
    ensures st.messages <= EmbedAll(config, st, ss).1.messages
    ensures st.encounteredError ==> EmbedAll(config, st, ss).1.encounteredError
  {
    var visit := EmbedVisitor(config);
    var P := (a: EmbedState) => st.messages <= a.messages && (st.encounteredError ==> a.encounteredError);
    assert Preserves(visit, P);
    SectionsPreserve(visit, P, st, ss, 0, |ss|);
  }

  // ---------------------------------------------------------------------
  // Stamping and flattening.

  /** Every section gets the library id; nothing else about it changes. */
  method StampSections(sections: seq<IntermediateSection>, id: string) returns (stamped: seq<IntermediateSection>)
    ensures |stamped| == |sections|
    ensures forall i :: 0 <= i < |sections| ==> stamped[i] == sections[i].(libraryId := Some(id))
  {
    stamped := sections;
    for i := 0 to |sections|
      invariant |stamped| == |sections|
      invariant forall k :: 0 <= k < i ==> stamped[k] == sections[k].(libraryId := Some(id))
      invariant forall k :: i <= k < |sections| ==> stamped[k] == sections[k]
    {
      stamped := stamped[i := stamped[i].(libraryId := Some(id))];
    }
  }

  /** The sections of several intermediates, one intermediate after another (SelectMany). */
  function Concat(groups: seq<seq<IntermediateSection>>): (r: seq<IntermediateSection>)
    ensures forall x :: x in r <==> exists g :: 0 <= g < |groups| && x in groups[g]
    decreases |groups|
  {
    if |groups| == 0 then [] else groups[0] + Concat(groups[1..])
  }

  /** Concatenation keeps every section of every group, in order. */
  lemma {:induction false} ConcatContains(groups: seq<seq<IntermediateSection>>, g: nat, k: nat)
    requires g < |groups| && k < |groups[g]|
    ensures var offset := |Concat(groups[..g])|;
            offset + k < |Concat(groups)| && Concat(groups)[offset + k] == groups[g][k]
    decreases g
  {
    if g > 0 {
      assert groups[1..][..g - 1] == groups[..g][1..];
      ConcatContains(groups[1..], g - 1, k);
    } else {
      assert groups[..0] == [];
    }
  }

  function SectionsOf(intermediates: seq<Intermediate>): seq<seq<IntermediateSection>>
    reads set i | i in intermediates
  {
    seq(|intermediates|, k requires 0 <= k < |intermediates| reads intermediates => intermediates[k].sections)
  }

  // ---------------------------------------------------------------------
  // The objects of a combination.

  datatype LibrarianExtension = LibrarianExtension(name: string)

  /** One call of an extension hook, with what the hook is given. */
  datatype HookCall =
    | PreCombine(extension: LibrarianExtension, libraryId: Option<string>)
    | PostCombine(extension: LibrarianExtension, library: Option<Intermediate>)

  function PreCombineCalls(extensions: seq<LibrarianExtension>, libraryId: Option<string>): seq<HookCall> {
    seq(|extensions|, i requires 0 <= i < |extensions| => PreCombine(extensions[i], libraryId))
  }

  function PostCombineCalls(extensions: seq<LibrarianExtension>, library: Option<Intermediate>): seq<HookCall> {
    seq(|extensions|, i requires 0 <= i < |extensions| => PostCombine(extensions[i], library))
  }

  /** The calls the extensions receive, in order. */
  class ExtensionCalls {
    var calls: seq<HookCall>

    constructor ()
      ensures calls == []
    {
      calls := [];
    }

    method Call(call: HookCall)
      modifies this
      ensures calls == old(calls) + [call]
    {
      calls := calls + [call];
    }
  }

  /** What ILibraryContext carries into a combination. */
  class LibraryContext {
    var libraryId: Option<string>
    const extensions: seq<LibrarianExtension>
    const bindFiles: bool
    /** What `new FileResolver(BindPaths, Extensions)` yields. */
    const fileResolver: FileResolver
    const intermediates: seq<Intermediate>
    const localizations: seq<Localization>

    constructor (libraryId: Option<string>, extensions: seq<LibrarianExtension>, bindFiles: bool,
                 fileResolver: FileResolver, intermediates: seq<Intermediate>, localizations: seq<Localization>)
      ensures this.libraryId == libraryId && this.extensions == extensions && this.bindFiles == bindFiles
      ensures this.fileResolver == fileResolver && this.intermediates == intermediates
      ensures this.localizations == localizations
    {
      this.libraryId := libraryId;
      this.extensions := extensions;
      this.bindFiles := bindFiles;
      this.fileResolver := fileResolver;
      this.intermediates := intermediates;
      this.localizations := localizations;
    }
  }

  /** What CollateLocalizationsCommand.Execute returns, with the messages it wrote. */
  datatype Collation = Collation(localizationsByCulture: map<string, Localization>, messages: seq<Message>)

  class Librarian {
    const messaging: Messaging
    const extensionCalls: ExtensionCalls
    /** `new WixVariableResolver(Messaging)`. */
    const variableResolver: VariableResolver
    /** CollateLocalizationsCommand. */
    const collate: seq<Localization> -> Collation
    /** The messages FindEntrySectionAndLoadSymbolsCommand writes about the library's sections. */
    const findEntrySection: seq<IntermediateSection> -> seq<Message>

    constructor (messaging: Messaging, extensionCalls: ExtensionCalls, variableResolver: VariableResolver,
                 collate: seq<Localization> -> Collation, findEntrySection: seq<IntermediateSection> -> seq<Message>)
      ensures this.messaging == messaging && this.extensionCalls == extensionCalls
      ensures this.variableResolver == variableResolver && this.collate == collate
      ensures this.findEntrySection == findEntrySection
    {
      this.messaging := messaging;
      this.extensionCalls := extensionCalls;
      this.variableResolver := variableResolver;
      this.collate := collate;
      this.findEntrySection := findEntrySection;
    }

    ghost function State(embed: seq<string>): EmbedState
      reads messaging
    {
      EmbedState(messaging.messages, messaging.encounteredError, embed)
    }

    /** The body of the field loop in Librarian.ResolveFilePathsToEmbed: one field of the embedding pass. */
    method EmbedPathField(config: EmbedConfig, h: FieldHandle, definition: TupleDefinition,
                          line: Option<SourceLineNumber>, field: Option<Field>, embed: seq<string>)
      returns (field': Option<Field>, embed': seq<string>)
      modifies messaging
      ensures Visited(field', State(embed')) == EmbedField(config, old(State(embed)), h, definition, line, field)
    {
      field', embed' := field, embed;
      if field.Some? && field.value.PathField? {
        var pathField := field.value.pathValue;
        var resolution := config.variableResolver(line, pathField.path, false);
        messaging.WriteAll(resolution.messages);
        var file := config.fileResolver.resolve(line, definition, resolution.value);
        if file.Some? && file.value != "" {
          field' := Some(EmbeddedIndexField(|embed'|));
          embed' := embed' + [file.value];
        } else {
          var m := FileNotFound(line, pathField.path, definition.name);
          assert AnyError([m]);
          messaging.Write(m);
        }
      }
    }

    /** The loop over one tuple's fields. */
    method EmbedRow(config: EmbedConfig, s: nat, t: nat, row: IntermediateTuple, embed: seq<string>)
      returns (row': IntermediateTuple, embed': seq<string>)
      modifies messaging
      ensures (row', State(embed')) == VisitTuple(EmbedVisitor(config), old(State(embed)), s, t, row)
    {
      ghost var visit := EmbedVisitor(config);
      ghost var atTuple := State(embed);
      row', embed' := row, embed;

      for i := 0 to |row.fields|
        invariant row' == row.(fields := row'.fields) && |row'.fields| == |row.fields|
        invariant row'.fields[..i] == VisitFields(visit, atTuple, s, t, row, i).0
        invariant row'.fields[i..] == row.fields[i..]
        invariant State(embed') == VisitFields(visit, atTuple, s, t, row, i).1
      {
        assert row'.fields[i] == row.fields[i];
        var field;
        field, embed' := EmbedPathField(config, FieldHandle(s, t, i), row'.definition, row'.sourceLineNumbers, row'.fields[i], embed');
        row' := row'.(fields := row'.fields[i := field]);
        assert row'.fields[..i + 1] == row'.fields[..i] + [field];
      }

      assert row'.fields == row'.fields[..|row.fields|];
    }

    /** The loop over one section's tuples. */
    method EmbedSection(config: EmbedConfig, s: nat, section: IntermediateSection, embed: seq<string>)
      returns (section': IntermediateSection, embed': seq<string>)
      modifies messaging
      ensures (section', State(embed')) == VisitSection(EmbedVisitor(config), old(State(embed)), s, section)
    {
      ghost var visit := EmbedVisitor(config);
      ghost var atSection := State(embed);
      section', embed' := section, embed;

      for t := 0 to |section.tuples|
        invariant section' == section.(tuples := section'.tuples) && |section'.tuples| == |section.tuples|
        invariant section'.tuples[..t] == VisitTuples(visit, atSection, s, section, t).0
        invariant section'.tuples[t..] == section.tuples[t..]
        invariant State(embed') == VisitTuples(visit, atSection, s, section, t).1
      {
        assert section'.tuples[t] == section.tuples[t];
        var row;
        row, embed' := EmbedRow(config, s, t, section'.tuples[t], embed');
        section' := section'.(tuples := section'.tuples[t := row]);
        assert section'.tuples[..t + 1] == section'.tuples[..t] + [row];
      }

      assert section'.tuples == section'.tuples[..|section.tuples|];
    }

    /**
     * Librarian.ResolveFilePathsToEmbed: when BindFiles is set, every resolvable Path field is
     * replaced by its index in the returned embed list; otherwise nothing
     * changes and the list is empty.
     */
    method ResolveFilePathsToEmbed(context: LibraryContext, sections: seq<IntermediateSection>)
      returns (sections': seq<IntermediateSection>, embedFilePaths: seq<string>)
      modifies messaging
      ensures var r := EmbedAll(EmbedConfig(variableResolver, context.fileResolver), old(State([])), sections);
              if context.bindFiles then (sections', State(embedFilePaths)) == r
              else sections' == sections && embedFilePaths == [] && State([]) == old(State([]))
    {
      sections', embedFilePaths := sections, [];
      if context.bindFiles {
        var config := EmbedConfig(variableResolver, context.fileResolver);
        ghost var visit := EmbedVisitor(config);
        ghost var st0 := State([]);

        for s := 0 to |sections|
          invariant |sections'| == |sections|
          invariant sections'[..s] == VisitSections(visit, st0, sections, s).0
          invariant sections'[s..] == sections[s..]
          invariant State(embedFilePaths) == VisitSections(visit, st0, sections, s).1
        {
          assert sections'[s] == sections[s];
          var section;
          section, embedFilePaths := EmbedSection(config, s, sections'[s], embedFilePaths);
          sections' := sections'[s := section];
          assert sections'[..s + 1] == VisitSections(visit, st0, sections, s).0 + [section];
        }

        assert sections' == sections'[..|sections|];
      }
    }

    /** The PreCombine and PostCombine loops of Librarian.Combine: the hook calls on the extensions, one after another. */
    method CallExtensions(calls: seq<HookCall>)
      modifies extensionCalls
      ensures extensionCalls.calls == old(extensionCalls.calls) + calls
    {
      for i := 0 to |calls|
        invariant extensionCalls.calls == old(extensionCalls.calls) + calls[..i]
      {
        extensionCalls.Call(calls[i]);
        assert calls[..i + 1] == calls[..i] + [calls[i]];
      }
      assert calls[..|calls|] == calls;
    }

    /** The try block of Librarian.Combine after collation: embed, stamp, build and validate the library, once collation reported no error. */
    method BuildLibrary(context: LibraryContext, id: string, sections: seq<IntermediateSection>, collation: Collation)
      returns (library: Intermediate)
      modifies messaging
      ensures var embedded :=
                if context.bindFiles then EmbedAll(EmbedConfig(variableResolver, context.fileResolver), old(State([])), sections)
                else (sections, old(State([])));
              && fresh(library)
              && library.id == id
              && |library.sections| == |sections|
              && (forall i :: 0 <= i < |sections| ==> library.sections[i] == embedded.0[i].(libraryId := Some(id)))
              && library.localizationsByCulture == collation.localizationsByCulture
              && library.embedFilePaths == embedded.1.embedFilePaths
              && State([]) == embedded.1.Write(findEntrySection(library.sections)).(embedFilePaths := [])
    {
      var embedded, embedFilePaths := ResolveFilePathsToEmbed(context, sections);
      var stamped := StampSections(embedded, id);
      library := new Intermediate(id, stamped, collation.localizationsByCulture, embedFilePaths);
      messaging.WriteAll(findEntrySection(library.sections));
    }

    /**
     * Combines the context's intermediates into a library. `passed` is the
     * library the PostCombine hooks receive: null when collation ended in
     * an error, otherwise the library built, even if validation then fails.
     */
    method Combine(context: LibraryContext, guid: seq<Byte>) returns (library: Option<Intermediate>, ghost passed: Option<Intermediate>)
      requires |guid| == 16
      modifies context, messaging, extensionCalls
      ensures context.libraryId == if IsNullOrEmpty(old(context.libraryId)) then Some(EncodeLibraryId(guid)) else old(context.libraryId)
      ensures context.libraryId.Some? && context.libraryId.value != ""
      ensures extensionCalls.calls == old(extensionCalls.calls) + PreCombineCalls(context.extensions, context.libraryId)
                                      + PostCombineCalls(context.extensions, passed)
      ensures var collation := collate(context.localizations);
              var collated := old(State([])).Write(collation.messages);
              && (collated.encounteredError ==> passed.None? && State([]) == collated)
              && (!collated.encounteredError ==>
                    var id := context.libraryId.value;
                    var sections := Concat(old(SectionsOf(context.intermediates)));
                    var embedded :=
                      if context.bindFiles then EmbedAll(EmbedConfig(variableResolver, context.fileResolver), collated, sections)
                      else (sections, collated);
                    && passed.Some? && fresh(passed.value)
                    && passed.value.id == id
                    && |passed.value.sections| == |sections|
                    && (forall i :: 0 <= i < |sections| ==> passed.value.sections[i] == embedded.0[i].(libraryId := Some(id)))
                    && passed.value.localizationsByCulture == collation.localizationsByCulture
                    && passed.value.embedFilePaths == embedded.1.embedFilePaths
                    && State([]) == embedded.1.Write(findEntrySection(passed.value.sections)).(embedFilePaths := []))
      ensures library == if messaging.encounteredError then None else passed
    {
      if IsNullOrEmpty(context.libraryId) {
        context.libraryId := Some(EncodeLibraryId(guid));
      }
      var id := context.libraryId.value;
      ghost var sectionGroups := SectionsOf(context.intermediates);

      CallExtensions(PreCombineCalls(context.extensions, context.libraryId));

      var handed: Option<Intermediate> := None;
      var sections := Concat(SectionsOf(context.intermediates));
      assert sections == Concat(sectionGroups);
      var collation := collate(context.localizations);
      messaging.WriteAll(collation.messages);

      if !messaging.encounteredError {
        var built := BuildLibrary(context, id, sections, collation);
        handed := Some(built);
      }

      // The finally block: every extension sees the library, or null after the early return.
      CallExtensions(PostCombineCalls(context.extensions, handed));

      passed := handed;
      library := if messaging.encounteredError then None else handed;
    }
  }
}
