/**
 * The intermediate representation the combination pipeline works on:
 * sections of tuples of typed fields, the handles that name one field,
 * the diagnostics written about them, and the Intermediate object that
 * owns a list of sections.
 */
module Data {
  import opened Wrappers

  /** Where in the authored source a tuple came from. */
  datatype SourceLineNumber = SourceLineNumber(fileName: string, lineNumber: int)

  /** The value of a Path field: a logical path, or an index into an embedded container. */
  datatype PathValue = PathValue(path: Option<string>, embeddedFileIndex: Option<int>, baseUri: Option<string>)

  /**
   * A field that is present (a missing field is `None` in the tuple).
   * The constructor is the field's declared type.
   */
  datatype Field =
    | StringField(text: Option<string>)
    | NumberField(number: Option<int>)
    | LargeNumberField(largeNumber: Option<int>)
    | BoolField(flag: Option<bool>)
    | PathField(pathValue: PathValue)

  datatype TupleDefinition = TupleDefinition(name: string)

  datatype IntermediateTuple = IntermediateTuple(
    definition: TupleDefinition,
    sourceLineNumbers: Option<SourceLineNumber>,
    fields: seq<Option<Field>>)

  datatype IntermediateSection = IntermediateSection(
    id: string,
    libraryId: Option<string>,
    tuples: seq<IntermediateTuple>)

  datatype Localization = Localization(culture: string, variables: map<string, string>)

  predicate IsNullOrEmpty(s: Option<string>) {
    s.None? || s.value == ""
  }

  /** What a Path field holds after a string is stored into it. */
  function PathFromString(s: string): Field {
    PathField(PathValue(Some(s), None, None))
  }

  /** One field of one tuple of one section, by position. */
  datatype FieldHandle = FieldHandle(section: nat, tuple: nat, field: nat)

  predicate ValidHandle(sections: seq<IntermediateSection>, h: FieldHandle) {
    && h.section < |sections|
    && h.tuple < |sections[h.section].tuples|
    && h.field < |sections[h.section].tuples[h.tuple].fields|
  }

  function TupleAt(sections: seq<IntermediateSection>, h: FieldHandle): IntermediateTuple
    requires ValidHandle(sections, h)
  {
    sections[h.section].tuples[h.tuple]
  }

  function FieldAt(sections: seq<IntermediateSection>, h: FieldHandle): Option<Field>
    requires ValidHandle(sections, h)
  {
    TupleAt(sections, h).fields[h.field]
  }

  /** Section-then-tuple-then-field order, strict. */
  predicate Precedes(a: FieldHandle, b: FieldHandle) {
    || a.section < b.section
    || (a.section == b.section && a.tuple < b.tuple)
    || (a.section == b.section && a.tuple == b.tuple && a.field < b.field)
  }

  predicate StrictlyOrdered(hs: seq<FieldHandle>) {
    forall a, b :: 0 <= a < b < |hs| ==> Precedes(hs[a], hs[b])
  }

  /** Same tuple apart from the values of its fields. */
  predicate SameTupleShape(a: IntermediateTuple, b: IntermediateTuple) {
    b == a.(fields := b.fields) && |b.fields| == |a.fields|
  }

  /** Same section apart from the values of the fields of its tuples. */
  predicate SameSectionShape(a: IntermediateSection, b: IntermediateSection) {
    && b == a.(tuples := b.tuples)
    && |b.tuples| == |a.tuples|
    && forall k :: 0 <= k < |a.tuples| ==> SameTupleShape(a.tuples[k], b.tuples[k])
  }

  predicate SameShape(a: seq<IntermediateSection>, b: seq<IntermediateSection>) {
    |a| == |b| && forall k :: 0 <= k < |a| ==> SameSectionShape(a[k], b[k])
  }

  lemma SameShapeHandles(a: seq<IntermediateSection>, b: seq<IntermediateSection>, h: FieldHandle)
    requires SameShape(a, b)
    ensures ValidHandle(a, h) <==> ValidHandle(b, h)
    ensures ValidHandle(a, h) ==> SameTupleShape(TupleAt(a, h), TupleAt(b, h))
  {
    if h.section < |a| {
      assert SameSectionShape(a[h.section], b[h.section]);
    }
  }

  datatype MessageLevel = Verbose | Information | Warning | Error

  datatype Message =
    | FileNotFound(sourceLineNumbers: Option<SourceLineNumber>, path: Option<string>, definitionName: string)
    | Diagnostic(level: MessageLevel, sourceLineNumbers: Option<SourceLineNumber>, text: string)
  {
    predicate IsError() {
      FileNotFound? || level == Error
    }
  }

  /** A message written at error level: what a WixException carries. */
  type ErrorMessage = m: Message | m.IsError() witness FileNotFound(None, None, "")

  predicate AnyError(ms: seq<Message>) {
    |ms| > 0 && (ms[0].IsError() || AnyError(ms[1..]))
  }

  lemma {:induction false} AnyErrorAppend(a: seq<Message>, b: seq<Message>)
    ensures AnyError(a + b) == (AnyError(a) || AnyError(b))
  {
    if |a| > 0 {
      assert (a + b)[0] == a[0];
      assert (a + b)[1..] == a[1..] + b;
      AnyErrorAppend(a[1..], b);
    } else {
      assert a + b == b;
    }
  }

  /** The messaging sink, reduced to an append-only log and the error flag. */
  class Messaging {
    var messages: seq<Message>
    var encounteredError: bool

    constructor (encounteredError: bool)
      ensures this.messages == [] && this.encounteredError == encounteredError
    {
      this.messages := [];
      this.encounteredError := encounteredError;
    }

    method Write(m: Message)
      modifies this
      ensures messages == old(messages) + [m]
      ensures encounteredError == (old(encounteredError) || m.IsError())
    {
      messages := messages + [m];
      encounteredError := encounteredError || m.IsError();
    }

    /** The messages a collaborator writes while it runs. */
    method WriteAll(ms: seq<Message>)
      modifies this
      ensures messages == old(messages) + ms
      ensures encounteredError == (old(encounteredError) || AnyError(ms))
    {
      messages := messages + ms;
      encounteredError := encounteredError || AnyError(ms);
    }
  }

  /** An intermediate (or a library): its sections are updated in place by binding. */
  class Intermediate {
    const id: string
    var sections: seq<IntermediateSection>
    const localizationsByCulture: map<string, Localization>
    const embedFilePaths: seq<string>

    constructor (id: string, sections: seq<IntermediateSection>,
                 localizationsByCulture: map<string, Localization>, embedFilePaths: seq<string>)
      ensures this.id == id && this.sections == sections
      ensures this.localizationsByCulture == localizationsByCulture
      ensures this.embedFilePaths == embedFilePaths
    {
      this.id := id;
      this.sections := sections;
      this.localizationsByCulture := localizationsByCulture;
      this.embedFilePaths := embedFilePaths;
    }
  }
}
