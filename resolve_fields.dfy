/**
 * The field-resolution pass of binding (ResolveFieldsCommand.Execute):
 * for every present field, in section-then-tuple-then-field order,
 * substitute variables in non-empty String fields when delayed resolution
 * is supported (recording the fields whose resolution is delayed), then,
 * unless an error has been reported so far, rewrite Path fields to an
 * embedded-file extraction path or to the file resolver's result.
 */
module ResolveFields {
  import opened Wrappers
  import opened Data
  import opened Services
  import opened Traversal

  /** Everything the pass reads besides the sections and the running state. */
  datatype Settings = Settings(
    supportDelayedResolution: bool,
    buildingPatch: bool,
    intermediateFolder: string,
    variableResolver: VariableResolver,
    fileResolver: FileResolver,
    choosePath: ExtractPathChooser)

  /** What the pass changes besides the fields: the messaging sink, the extractor, the delayed list. */
  datatype ResolveState = ResolveState(
    messages: seq<Message>,
    encounteredError: bool,
    registrations: seq<EmbeddedFileRegistration>,
    delayedFields: seq<FieldHandle>)
  {
    function Write(ms: seq<Message>): ResolveState {
      this.(messages := messages + ms, encounteredError := encounteredError || AnyError(ms))
    }
  }

  /** A field after variable substitution, with the isDefault the path step reads. */
  datatype AfterVariables = AfterVariables(field: Field, state: ResolveState, isDefault: bool)

  /** Whether the variable step runs on a field. */
  predicate ResolvesVariables(settings: Settings, field: Field) {
    settings.supportDelayedResolution && field.StringField? && !IsNullOrEmpty(field.text)
  }

  /** The variable step of one field; isDefault starts out true. */
  function ResolveVariablesInField(settings: Settings, st: ResolveState, h: FieldHandle,
                                   line: Option<SourceLineNumber>, field: Field): AfterVariables
  {
    if ResolvesVariables(settings, field) then
      var resolution := settings.variableResolver(line, field.text, false);
      var written := st.Write(resolution.messages);
      AfterVariables(
        if resolution.updatedValue then StringField(resolution.value) else field,
        if resolution.delayedResolve then written.(delayedFields := written.delayedFields + [h]) else written,
        resolution.isDefault)
    else
      AfterVariables(field, st, true)
  }

  /** File resolution runs when not building a patch, or when building one without rebasing. */
  predicate ResolvesNormally(settings: Settings) {
    !settings.buildingPatch || (!settings.fileResolver.rebaseTarget && !settings.fileResolver.rebaseUpdated)
  }

  /** The path step of one field, skipped whenever an error has been reported. */
  function ResolvePathInField(settings: Settings, after: AfterVariables, definition: TupleDefinition,
                              line: Option<SourceLineNumber>): Visited<ResolveState>
  {
    var field := after.field;
    var st := after.state;
    if st.encounteredError || !field.PathField? then
      Visited(Some(field), st)
    else
      var objectField := field.pathValue;
      if objectField.embeddedFileIndex.Some? && after.isDefault then
        var registration := EmbeddedFileRegistration(objectField.baseUri, objectField.embeddedFileIndex.value, settings.intermediateFolder);
        Visited(Some(PathFromString(settings.choosePath(st.registrations, registration))),
                st.(registrations := st.registrations + [registration]))
      else if objectField.path.Some? && ResolvesNormally(settings) then
        match settings.fileResolver.resolveFile(objectField.path.value, definition, line, Normal)
        case Resolved(value) => Visited(Some(PathFromString(value)), st)
        case Failed(error) => Visited(Some(field), st.Write([error]))
      else
        Visited(Some(field), st)
  }

  /** One field: null fields are skipped, the others go through both steps. */
  function ResolveField(settings: Settings, st: ResolveState, h: FieldHandle, definition: TupleDefinition,
                        line: Option<SourceLineNumber>, field: Option<Field>): Visited<ResolveState>
  {
    if field.None? then Visited(None, st)
    else ResolvePathInField(settings, ResolveVariablesInField(settings, st, h, line, field.value), definition, line)
  }

  function Visitor(settings: Settings): FieldVisitor<ResolveState> {
    (st, h, d, l, f) => ResolveField(settings, st, h, d, l, f)
  }

  /** The whole pass over the sections from a given state. */
  function ResolveAll(settings: Settings, st: ResolveState, ss: seq<IntermediateSection>)
    : (r: (seq<IntermediateSection>, ResolveState))
    ensures SameShape(ss, r.0)
  {
    VisitAll(Visitor(settings), st, ss)
  }

  /** The state the pass is in when it reaches the field at h. */
  function ResolveStateAt(settings: Settings, st: ResolveState, ss: seq<IntermediateSection>, h: FieldHandle): ResolveState
    requires ValidHandle(ss, h)
  {
    StateAt(Visitor(settings), st, ss, h)
  }

  /** Whether the field's variable resolution reports DelayedResolve; it does not depend on the state. */
  predicate DelayedResolveRequested(settings: Settings, line: Option<SourceLineNumber>, field: Option<Field>) {
    && field.Some?
    && ResolvesVariables(settings, field.value)
    && settings.variableResolver(line, field.value.text, false).delayedResolve
  }

  function DelayedPicker(settings: Settings): FieldPicker {
    (h, d, l, f) => DelayedResolveRequested(settings, l, f)
  }

  predicate DelayedAt(settings: Settings, ss: seq<IntermediateSection>, h: FieldHandle)
    requires ValidHandle(ss, h)
  {
    DelayedResolveRequested(settings, TupleAt(ss, h).sourceLineNumbers, FieldAt(ss, h))
  }

  // ---------------------------------------------------------------------
  // What the pass does to each field.

  lemma FieldOutcome(settings: Settings, st: ResolveState, ss: seq<IntermediateSection>, h: FieldHandle)
    requires ValidHandle(ss, h)
    ensures ValidHandle(ResolveAll(settings, st, ss).0, h)
    ensures FieldAt(ResolveAll(settings, st, ss).0, h)
         == ResolveField(settings, ResolveStateAt(settings, st, ss, h), h, TupleAt(ss, h).definition,
                         TupleAt(ss, h).sourceLineNumbers, FieldAt(ss, h)).field
  {
    VisitedFieldAt(Visitor(settings), st, ss, h);
  }

  /** Null fields are skipped and never changed. */
  lemma NullFieldsStayNull(settings: Settings, st: ResolveState, ss: seq<IntermediateSection>, h: FieldHandle)
    requires ValidHandle(ss, h) && FieldAt(ss, h).None?
    ensures ValidHandle(ResolveAll(settings, st, ss).0, h)
    ensures FieldAt(ResolveAll(settings, st, ss).0, h).None?
  {
    FieldOutcome(settings, st, ss, h);
  }

  /** Number, large-number and Bool fields are never changed. */
  lemma OtherFieldsUnchanged(settings: Settings, st: ResolveState, ss: seq<IntermediateSection>, h: FieldHandle)
    requires ValidHandle(ss, h) && FieldAt(ss, h).Some?
    requires !FieldAt(ss, h).value.StringField? && !FieldAt(ss, h).value.PathField?
    ensures ValidHandle(ResolveAll(settings, st, ss).0, h)
    ensures FieldAt(ResolveAll(settings, st, ss).0, h) == FieldAt(ss, h)
  {
    FieldOutcome(settings, st, ss, h);
  }

  /**
   * A String field is rewritten exactly when delayed resolution is supported,
   * its text is non-empty and the resolver (asked with `false`) reports an
   * updated value; the outcome does not depend on anything else the pass did.
   */
  lemma StringFieldOutcome(settings: Settings, st: ResolveState, ss: seq<IntermediateSection>, h: FieldHandle)
    requires ValidHandle(ss, h) && FieldAt(ss, h).Some? && FieldAt(ss, h).value.StringField?
    ensures ValidHandle(ResolveAll(settings, st, ss).0, h)
    ensures var text := FieldAt(ss, h).value.text;
            var resolution := settings.variableResolver(TupleAt(ss, h).sourceLineNumbers, text, false);
            FieldAt(ResolveAll(settings, st, ss).0, h)
            == if settings.supportDelayedResolution && !IsNullOrEmpty(text) && resolution.updatedValue
               then Some(StringField(resolution.value))
               else FieldAt(ss, h)
  {
    FieldOutcome(settings, st, ss, h);
  }

  /**
   * A Path field: left alone once an error has been reported; otherwise an
   * embedded index always wins (isDefault is true for every Path field) and
   * yields the extraction path; otherwise a logical path is resolved in the
   * Normal stage unless a rebase flag is set while building a patch, and a
   * resolution failure leaves the field as it was.
   */
  lemma PathFieldOutcome(settings: Settings, st: ResolveState, ss: seq<IntermediateSection>, h: FieldHandle)
    requires ValidHandle(ss, h) && FieldAt(ss, h).Some? && FieldAt(ss, h).value.PathField?
    ensures ValidHandle(ResolveAll(settings, st, ss).0, h)
    ensures var p := FieldAt(ss, h).value.pathValue;
            var tuple := TupleAt(ss, h);
            var at := ResolveStateAt(settings, st, ss, h);
            var result := FieldAt(ResolveAll(settings, st, ss).0, h);
            && (at.encounteredError ==> result == FieldAt(ss, h))
            && (!at.encounteredError && p.embeddedFileIndex.Some? ==>
                  result == Some(PathFromString(settings.choosePath(at.registrations,
                    EmbeddedFileRegistration(p.baseUri, p.embeddedFileIndex.value, settings.intermediateFolder)))))
            && (!at.encounteredError && p.embeddedFileIndex.None? && p.path.Some? && ResolvesNormally(settings) ==>
                  result == match settings.fileResolver.resolveFile(p.path.value, tuple.definition, tuple.sourceLineNumbers, Normal)
                            case Resolved(value) => Some(PathFromString(value))
                            case Failed(_) => FieldAt(ss, h))
            && (p.embeddedFileIndex.None? && (p.path.None? || !ResolvesNormally(settings)) ==> result == FieldAt(ss, h))
  {
    FieldOutcome(settings, st, ss, h);
  }

  // ---------------------------------------------------------------------
  // The error flag.

  /** No visit clears the error flag. */
  lemma ErrorIsSticky(settings: Settings)
    ensures Preserves(Visitor(settings), (a: ResolveState) => a.encounteredError)
  {
  }

  /**
   * Once an error has been reported — by this field's own resolution or by
   * anything earlier — path resolution is skipped for every later field.
   */
  lemma ErrorSkipsLaterPathFields(settings: Settings, st: ResolveState, ss: seq<IntermediateSection>,
                                  h: FieldHandle, h': FieldHandle)
    requires ValidHandle(ss, h) && ValidHandle(ss, h') && Precedes(h, h')
    requires VisitAt(Visitor(settings), st, ss, h).state.encounteredError
    requires FieldAt(ss, h').Some? && FieldAt(ss, h').value.PathField?
    ensures ValidHandle(ResolveAll(settings, st, ss).0, h')
    ensures FieldAt(ResolveAll(settings, st, ss).0, h') == FieldAt(ss, h')
  {
    ErrorIsSticky(settings);
    PreservedLater(Visitor(settings), (a: ResolveState) => a.encounteredError, st, ss, h, h');
    PathFieldOutcome(settings, st, ss, h');
  }

  /** An error reported before the pass means no Path field changes and nothing is extracted. */
  lemma EarlierErrorSkipsAllPathFields(settings: Settings, st: ResolveState, ss: seq<IntermediateSection>)
    requires st.encounteredError
    ensures ResolveAll(settings, st, ss).1.encounteredError
    ensures ResolveAll(settings, st, ss).1.registrations == st.registrations
    ensures forall h :: ValidHandle(ss, h) && FieldAt(ss, h).Some? && FieldAt(ss, h).value.PathField? ==>
              ValidHandle(ResolveAll(settings, st, ss).0, h) && FieldAt(ResolveAll(settings, st, ss).0, h) == FieldAt(ss, h)
  {
    var visit := Visitor(settings);
    var P := (a: ResolveState) => a.encounteredError && a.registrations == st.registrations;
    assert Preserves(visit, P);
    SectionsPreserve(visit, P, st, ss, 0, |ss|);
    forall h | ValidHandle(ss, h) && FieldAt(ss, h).Some? && FieldAt(ss, h).value.PathField?
      ensures ValidHandle(ResolveAll(settings, st, ss).0, h) && FieldAt(ResolveAll(settings, st, ss).0, h) == FieldAt(ss, h)
    {
      PreservedFromStart(visit, P, st, ss, h);
      PathFieldOutcome(settings, st, ss, h);
    }
  }

  /** The pass only appends to the message log and never clears the error flag. */
  lemma MessagesOnlyAppended(settings: Settings, st: ResolveState, ss: seq<IntermediateSection>)
    ensures st.messages <= ResolveAll(settings, st, ss).1.messages
    ensures st.encounteredError ==> ResolveAll(settings, st, ss).1.encounteredError
  {
    var visit := Visitor(settings);
    var P := (a: ResolveState) => st.messages <= a.messages && (st.encounteredError ==> a.encounteredError);
    assert Preserves(visit, P);
    SectionsPreserve(visit, P, st, ss, 0, |ss|);
  }

  // ---------------------------------------------------------------------
  // What is recorded about a field stays recorded.

  /** An extracted field's registration is in the extractor's list at the position it had when made. */
  lemma ExtractionRegistered(settings: Settings, st: ResolveState, ss: seq<IntermediateSection>, h: FieldHandle)
    requires ValidHandle(ss, h) && FieldAt(ss, h).Some? && FieldAt(ss, h).value.PathField?
    requires FieldAt(ss, h).value.pathValue.embeddedFileIndex.Some?
    requires !ResolveStateAt(settings, st, ss, h).encounteredError
    ensures var p := FieldAt(ss, h).value.pathValue;
            var k := |ResolveStateAt(settings, st, ss, h).registrations|;
            var registrations := ResolveAll(settings, st, ss).1.registrations;
            k < |registrations|
            && registrations[k] == EmbeddedFileRegistration(p.baseUri, p.embeddedFileIndex.value, settings.intermediateFolder)
  {
    var visit := Visitor(settings);
    var after := VisitAt(visit, st, ss, h).state.registrations;
    var P := (a: ResolveState) => after <= a.registrations;
    assert Preserves(visit, P);
    PreservedToEnd(visit, P, st, ss, h);
  }

  /** The file resolver's answer for the Path field at h, in the Normal stage. */
  function FileResolutionAt(settings: Settings, ss: seq<IntermediateSection>, h: FieldHandle): FileResolution
    requires ValidHandle(ss, h) && FieldAt(ss, h).Some? && FieldAt(ss, h).value.PathField?
    requires FieldAt(ss, h).value.pathValue.path.Some?
  {
    settings.fileResolver.resolveFile(FieldAt(ss, h).value.pathValue.path.value, TupleAt(ss, h).definition,
                                      TupleAt(ss, h).sourceLineNumbers, Normal)
  }

  lemma FailedResolutionStep(settings: Settings, a: ResolveState, h: FieldHandle, d: TupleDefinition,
                             l: Option<SourceLineNumber>, p: PathValue)
    requires !a.encounteredError && p.embeddedFileIndex.None? && p.path.Some? && ResolvesNormally(settings)
    requires settings.fileResolver.resolveFile(p.path.value, d, l, Normal).Failed?
    ensures ResolveField(settings, a, h, d, l, Some(PathField(p))).state.messages
         == a.messages + [settings.fileResolver.resolveFile(p.path.value, d, l, Normal).error]
    ensures ResolveField(settings, a, h, d, l, Some(PathField(p))).state.encounteredError
    ensures ResolveField(settings, a, h, d, l, Some(PathField(p))).field == Some(PathField(p))
  {
    assert AnyError([settings.fileResolver.resolveFile(p.path.value, d, l, Normal).error]);
  }

  /**
   * A failed file resolution leaves its error in the message log and sets
   * the error flag: the failing field keeps its value, and so does every
   * later Path field, since path resolution is skipped from then on.
   */
  lemma FileResolutionErrorReported(settings: Settings, st: ResolveState, ss: seq<IntermediateSection>, h: FieldHandle)
    requires ValidHandle(ss, h) && FieldAt(ss, h).Some? && FieldAt(ss, h).value.PathField?
    requires FieldAt(ss, h).value.pathValue.embeddedFileIndex.None? && FieldAt(ss, h).value.pathValue.path.Some?
    requires ResolvesNormally(settings) && !ResolveStateAt(settings, st, ss, h).encounteredError
    requires FileResolutionAt(settings, ss, h).Failed?
    ensures var k := |ResolveStateAt(settings, st, ss, h).messages|;
            var messages := ResolveAll(settings, st, ss).1.messages;
            k < |messages| && messages[k] == FileResolutionAt(settings, ss, h).error
    ensures ResolveAll(settings, st, ss).1.encounteredError
    ensures ValidHandle(ResolveAll(settings, st, ss).0, h) && FieldAt(ResolveAll(settings, st, ss).0, h) == FieldAt(ss, h)
    ensures forall h' :: ValidHandle(ss, h') && Precedes(h, h') && FieldAt(ss, h').Some? && FieldAt(ss, h').value.PathField? ==>
              ValidHandle(ResolveAll(settings, st, ss).0, h') && FieldAt(ResolveAll(settings, st, ss).0, h') == FieldAt(ss, h')
  {
    var visit := Visitor(settings);
    var at := ResolveStateAt(settings, st, ss, h);
    var after := VisitAt(visit, st, ss, h).state.messages;
    FailedResolutionStep(settings, at, h, TupleAt(ss, h).definition, TupleAt(ss, h).sourceLineNumbers, FieldAt(ss, h).value.pathValue);
    var P := (a: ResolveState) => after <= a.messages;
    assert Preserves(visit, P);
    PreservedToEnd(visit, P, st, ss, h);
    ErrorIsSticky(settings);
    PreservedToEnd(visit, (a: ResolveState) => a.encounteredError, st, ss, h);
    FieldOutcome(settings, st, ss, h);
    forall h' | ValidHandle(ss, h') && Precedes(h, h') && FieldAt(ss, h').Some? && FieldAt(ss, h').value.PathField?
      ensures ValidHandle(ResolveAll(settings, st, ss).0, h') && FieldAt(ResolveAll(settings, st, ss).0, h') == FieldAt(ss, h')
    {
      ErrorSkipsLaterPathFields(settings, st, ss, h, h');
    }
  }

  // ---------------------------------------------------------------------
  // The delayed fields.

  lemma FieldDelays(settings: Settings, a: ResolveState, h: FieldHandle, d: TupleDefinition,
                    l: Option<SourceLineNumber>, f: Option<Field>)
    ensures ResolveField(settings, a, h, d, l, f).state.delayedFields
         == a.delayedFields + (if DelayedResolveRequested(settings, l, f) then [h] else [])
  {
  }

  /**
   * The delayed list holds exactly the fields whose resolution reported
   * DelayedResolve, each once, in section-then-tuple-then-field order; none
   * when delayed resolution is not supported.
   */
  lemma DelayedFieldsInOrder(settings: Settings, st: ResolveState, ss: seq<IntermediateSection>)
    requires st.delayedFields == []
    ensures forall h :: h in ResolveAll(settings, st, ss).1.delayedFields <==> ValidHandle(ss, h) && DelayedAt(settings, ss, h)
    ensures StrictlyOrdered(ResolveAll(settings, st, ss).1.delayedFields)
    ensures !settings.supportDelayedResolution ==> ResolveAll(settings, st, ss).1.delayedFields == []
  {
    var visit := Visitor(settings);
    var out := (a: ResolveState) => a.delayedFields;
    var emit := Selecting(DelayedPicker(settings));
    forall a, h, d, l, f ensures out(visit(a, h, d, l, f).state) == out(a) + emit(h, d, l, f) {
      FieldDelays(settings, a, h, d, l, f);
    }
    AppendsEmitted(visit, out, emit, st, ss);
    Selected(DelayedPicker(settings), ss);
    if !settings.supportDelayedResolution {
      var none := (a: ResolveState) => a.delayedFields == [];
      forall a, h, d, l, f ensures none(a) ==> none(visit(a, h, d, l, f).state) {
        FieldDelays(settings, a, h, d, l, f);
      }
      SectionsPreserve(visit, none, st, ss, 0, |ss|);
    }
  }

  // ---------------------------------------------------------------------
  // The collaborators are consulted only in the ways the pass uses them.

  /**
   * The pass depends on the variable resolver only through its answers to
   * calls with `false` as the third argument, and on the file resolver only
   * through its answers in the Normal stage.
   */
  lemma OnlyNonDelayedCallsMatter(s1: Settings, s2: Settings, st: ResolveState, ss: seq<IntermediateSection>)
    requires s1.(variableResolver := s2.variableResolver, fileResolver := s2.fileResolver) == s2
    requires s1.fileResolver.rebaseTarget == s2.fileResolver.rebaseTarget
    requires s1.fileResolver.rebaseUpdated == s2.fileResolver.rebaseUpdated
    requires forall l, t :: s1.variableResolver(l, t, false) == s2.variableResolver(l, t, false)
    requires forall p, d, l :: s1.fileResolver.resolveFile(p, d, l, Normal) == s2.fileResolver.resolveFile(p, d, l, Normal)
    ensures ResolveAll(s1, st, ss) == ResolveAll(s2, st, ss)
  {
    forall a, h, d, l, f ensures Visitor(s1)(a, h, d, l, f) == Visitor(s2)(a, h, d, l, f) {
      if f.Some? && f.value.StringField? {
        assert s1.variableResolver(l, f.value.text, false) == s2.variableResolver(l, f.value.text, false);
      }
      if f.Some? && f.value.PathField? && f.value.pathValue.path.Some? {
        var p := f.value.pathValue.path.value;
        assert s1.fileResolver.resolveFile(p, d, l, Normal) == s2.fileResolver.resolveFile(p, d, l, Normal);
      }
    }
    VisitorsAgree(Visitor(s1), Visitor(s2), st, ss);
  }

  // ---------------------------------------------------------------------
  // The command object.

  class ResolveFieldsCommand {
    const messaging: Messaging
    const buildingPatch: bool
    const variableResolver: VariableResolver
    /** What `new FileResolver(BindPaths, Extensions)` yields. */
    const fileResolver: FileResolver
    const filesWithEmbeddedFiles: ExtractEmbeddedFiles
    const intermediateFolder: string
    const intermediate: Intermediate
    const supportDelayedResolution: bool
    /** `None` stands for the null list. */
    var delayedFields: Option<seq<FieldHandle>>

    constructor (messaging: Messaging, buildingPatch: bool, variableResolver: VariableResolver,
                 fileResolver: FileResolver, filesWithEmbeddedFiles: ExtractEmbeddedFiles,
                 intermediateFolder: string, intermediate: Intermediate, supportDelayedResolution: bool)
      ensures this.messaging == messaging && this.buildingPatch == buildingPatch
      ensures this.variableResolver == variableResolver && this.fileResolver == fileResolver
      ensures this.filesWithEmbeddedFiles == filesWithEmbeddedFiles
      ensures this.intermediateFolder == intermediateFolder && this.intermediate == intermediate
      ensures this.supportDelayedResolution == supportDelayedResolution
      ensures delayedFields == None
    {
      this.messaging := messaging;
      this.buildingPatch := buildingPatch;
      this.variableResolver := variableResolver;
      this.fileResolver := fileResolver;
      this.filesWithEmbeddedFiles := filesWithEmbeddedFiles;
      this.intermediateFolder := intermediateFolder;
      this.intermediate := intermediate;
      this.supportDelayedResolution := supportDelayedResolution;
      delayedFields := None;
    }

    function Config(): Settings {
      Settings(supportDelayedResolution, buildingPatch, intermediateFolder, variableResolver, fileResolver,
               filesWithEmbeddedFiles.choosePath)
    }

    ghost function State(delayed: Option<seq<FieldHandle>>): ResolveState
      reads messaging, filesWithEmbeddedFiles
    {
      ResolveState(messaging.messages, messaging.encounteredError, filesWithEmbeddedFiles.registrations,
                   if delayed.Some? then delayed.value else [])
    }

    /** The variable step of ResolveFieldsCommand.Execute's field loop: variable substitution in a non-empty String field. */
    method ResolveVariables(h: FieldHandle, line: Option<SourceLineNumber>, field: Field,
                            delayed: Option<seq<FieldHandle>>)
      returns (resolved: Option<Field>, delayed': Option<seq<FieldHandle>>, isDefault: bool)
      requires delayed.Some? == supportDelayedResolution
      modifies messaging
      ensures delayed'.Some? == supportDelayedResolution
      ensures var after := ResolveVariablesInField(Config(), old(State(delayed)), h, line, field);
              resolved == Some(after.field) && State(delayed') == after.state && isDefault == after.isDefault
    {
      resolved, delayed', isDefault := Some(field), delayed, true;
      if delayed.Some? {
        if field.StringField? {
          var original := field.text;
          if !IsNullOrEmpty(original) {
            var resolution := variableResolver(line, original, false);
            messaging.WriteAll(resolution.messages);
            if resolution.updatedValue {
              resolved := Some(StringField(resolution.value));
            }
            if resolution.delayedResolve {
              delayed' := Some(delayed.value + [h]);
            }
            isDefault := resolution.isDefault;
          }
        }
      }
    }

    /** The path step of ResolveFieldsCommand.Execute's field loop, reached only while no error has been reported. */
    method ResolvePath(field: Field, isDefault: bool, definition: TupleDefinition, line: Option<SourceLineNumber>,
                       ghost delayed: Option<seq<FieldHandle>>)
      returns (resolved: Option<Field>)
      requires !messaging.encounteredError
      modifies messaging, filesWithEmbeddedFiles
      ensures Visited(resolved, State(delayed))
           == ResolvePathInField(Config(), AfterVariables(field, old(State(delayed)), isDefault), definition, line)
    {
      resolved := Some(field);
      if field.PathField? {
        var objectField := field.pathValue;
        if objectField.embeddedFileIndex.Some? && isDefault {
          var extractPath := filesWithEmbeddedFiles.AddEmbeddedFileIndex(objectField.baseUri, objectField.embeddedFileIndex.value, intermediateFolder);
          resolved := Some(PathFromString(extractPath));
        } else if objectField.path.Some? {
          if !buildingPatch {
            var value := fileResolver.resolveFile(objectField.path.value, definition, line, Normal);
            match value {
              case Resolved(path) => resolved := Some(PathFromString(path));
              case Failed(error) =>
                assert AnyError([error]) == error.IsError();
                messaging.Write(error);
            }
          } else if !fileResolver.rebaseTarget && !fileResolver.rebaseUpdated {
            var value := fileResolver.resolveFile(objectField.path.value, definition, line, Normal);
            match value {
              case Resolved(path) => resolved := Some(PathFromString(path));
              case Failed(error) =>
                assert AnyError([error]) == error.IsError();
                messaging.Write(error);
            }
          }
        }
      }
    }

    /** The body of ResolveFieldsCommand.Execute's field loop: its variables, then, unless an error was reported, its path. */
    method ResolveOneField(h: FieldHandle, definition: TupleDefinition, line: Option<SourceLineNumber>,
                           field: Option<Field>, delayed: Option<seq<FieldHandle>>)
      returns (field': Option<Field>, delayed': Option<seq<FieldHandle>>)
      requires delayed.Some? == supportDelayedResolution
      modifies messaging, filesWithEmbeddedFiles
      ensures delayed'.Some? == supportDelayedResolution
      ensures Visited(field', State(delayed')) == ResolveField(Config(), old(State(delayed)), h, definition, line, field)
    {
      field', delayed' := field, delayed;
      if field.None? {
        return;
      }
      var isDefault;
      field', delayed', isDefault := ResolveVariables(h, line, field.value, delayed');
      if messaging.encounteredError {
        return;
      }
      field' := ResolvePath(field'.value, isDefault, definition, line, delayed');
    }

    /** The field loop of ResolveFieldsCommand.Execute, over one tuple's fields. */
    method ResolveRow(s: nat, t: nat, row: IntermediateTuple, delayed: Option<seq<FieldHandle>>)
      returns (row': IntermediateTuple, delayed': Option<seq<FieldHandle>>)
      requires delayed.Some? == supportDelayedResolution
      modifies messaging, filesWithEmbeddedFiles
      ensures delayed'.Some? == supportDelayedResolution
      ensures (row', State(delayed')) == VisitTuple(Visitor(Config()), old(State(delayed)), s, t, row)
    {
      ghost var visit := Visitor(Config());
      ghost var atTuple := State(delayed);
      row', delayed' := row, delayed;

      for i := 0 to |row.fields|
        invariant row' == row.(fields := row'.fields) && |row'.fields| == |row.fields|
        invariant row'.fields[..i] == VisitFields(visit, atTuple, s, t, row, i).0
        invariant row'.fields[i..] == row.fields[i..]
        invariant State(delayed') == VisitFields(visit, atTuple, s, t, row, i).1
        invariant delayed'.Some? == supportDelayedResolution
      {
        assert row'.fields[i] == row.fields[i];
        var field;
        field, delayed' := ResolveOneField(FieldHandle(s, t, i), row'.definition, row'.sourceLineNumbers, row'.fields[i], delayed');
        row' := row'.(fields := row'.fields[i := field]);
        assert row'.fields[..i + 1] == row'.fields[..i] + [field];
      }

      assert row'.fields == row'.fields[..|row.fields|];
    }

    /** The tuple loop of ResolveFieldsCommand.Execute, over one section's tuples. */
    method ResolveSection(s: nat, section: IntermediateSection, delayed: Option<seq<FieldHandle>>)
      returns (section': IntermediateSection, delayed': Option<seq<FieldHandle>>)
      requires delayed.Some? == supportDelayedResolution
      modifies messaging, filesWithEmbeddedFiles
      ensures delayed'.Some? == supportDelayedResolution
      ensures (section', State(delayed')) == VisitSection(Visitor(Config()), old(State(delayed)), s, section)
    {
      ghost var visit := Visitor(Config());
      ghost var atSection := State(delayed);
      section', delayed' := section, delayed;

      for t := 0 to |section.tuples|
        invariant section' == section.(tuples := section'.tuples) && |section'.tuples| == |section.tuples|
        invariant section'.tuples[..t] == VisitTuples(visit, atSection, s, section, t).0
        invariant section'.tuples[t..] == section.tuples[t..]
        invariant State(delayed') == VisitTuples(visit, atSection, s, section, t).1
        invariant delayed'.Some? == supportDelayedResolution
      {
        assert section'.tuples[t] == section.tuples[t];
        var row := section'.tuples[t];
        row, delayed' := ResolveRow(s, t, row, delayed');
        section' := section'.(tuples := section'.tuples[t := row]);
        assert section'.tuples[..t + 1] == section'.tuples[..t] + [row];
      }

      assert section'.tuples == section'.tuples[..|section.tuples|];
    }

    /**
     * Resolves the fields of every tuple of every section of the
     * intermediate, in place; the delayed list is published at the end,
     * null unless delayed resolution is supported.
     */
    method Execute()
      modifies this, intermediate, messaging, filesWithEmbeddedFiles
      ensures var r := ResolveAll(Config(), old(State(None)), old(intermediate.sections));
              && intermediate.sections == r.0
              && messaging.messages == r.1.messages
              && messaging.encounteredError == r.1.encounteredError
              && filesWithEmbeddedFiles.registrations == r.1.registrations
              && delayedFields == (if supportDelayedResolution then Some(r.1.delayedFields) else None)
    {
      var delayed: Option<seq<FieldHandle>> := if supportDelayedResolution then Some([]) else None;
      ghost var visit := Visitor(Config());
      ghost var st0 := State(delayed);
      ghost var ss := intermediate.sections;

      for s := 0 to |intermediate.sections|
        invariant |intermediate.sections| == |ss|
        invariant intermediate.sections[..s] == VisitSections(visit, st0, ss, s).0
        invariant intermediate.sections[s..] == ss[s..]
        invariant State(delayed) == VisitSections(visit, st0, ss, s).1
        invariant delayed.Some? == supportDelayedResolution
      {
        ghost var sections := intermediate.sections;
        assert sections[s] == ss[s];
        var section := intermediate.sections[s];
        section, delayed := ResolveSection(s, section, delayed);
        intermediate.sections := intermediate.sections[s := section];
        assert intermediate.sections[..s + 1] == sections[..s] + [section];
      }

      assert intermediate.sections == intermediate.sections[..|ss|];
      delayedFields := delayed;
    }
  }
}
