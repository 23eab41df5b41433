/**
 * The collaborators the combination pipeline calls but whose internals are
 * not part of this model: the variable resolver, the file resolver and the
 * embedded-file extractor. Each is an oracle; only its interface is fixed.
 */
module Services {
  import opened Wrappers
  import opened Data

  /** What IVariableResolver.ResolveVariables reports, with the messages it wrote. */
  datatype VariableResolution = VariableResolution(
    value: Option<string>,
    updatedValue: bool,
    delayedResolve: bool,
    isDefault: bool,
    messages: seq<Message>)

  /** ResolveVariables(sourceLineNumbers, value, third argument). */
  type VariableResolver = (Option<SourceLineNumber>, Option<string>, bool) -> VariableResolution

  datatype BindStage = Normal | Target | Updated

  /** FileResolver.ResolveFile returns a path or throws a WixException carrying an error. */
  datatype FileResolution = Resolved(path: string) | Failed(error: ErrorMessage)

  /**
   * What `new FileResolver(bindPaths, extensions)` offers its callers: the
   * rebase flags, ResolveFile (which throws when the file is not found) and
   * Resolve (which returns null or empty text when it is not found).
   */
  datatype FileResolver = FileResolver(
    rebaseTarget: bool,
    rebaseUpdated: bool,
    resolveFile: (string, TupleDefinition, Option<SourceLineNumber>, BindStage) -> FileResolution,
    resolve: (Option<SourceLineNumber>, TupleDefinition, Option<string>) -> Option<string>)

  /** One call of AddEmbeddedFileIndex(baseUri, embeddedFileIndex, intermediateFolder). */
  datatype EmbeddedFileRegistration = EmbeddedFileRegistration(baseUri: Option<string>, index: int, folder: string)

  /** The extraction path the extractor hands out, given every earlier registration. */
  type ExtractPathChooser = (seq<EmbeddedFileRegistration>, EmbeddedFileRegistration) -> string

  /** The embedded-file extractor: it records every registration it is asked for. */
  class ExtractEmbeddedFiles {
    const choosePath: ExtractPathChooser
    var registrations: seq<EmbeddedFileRegistration>

    constructor (choosePath: ExtractPathChooser)
      ensures this.choosePath == choosePath && registrations == []
    {
      this.choosePath := choosePath;
      registrations := [];
    }

    method AddEmbeddedFileIndex(baseUri: Option<string>, index: int, folder: string) returns (extractPath: string)
      modifies this
      ensures extractPath == choosePath(old(registrations), EmbeddedFileRegistration(baseUri, index, folder))
      ensures registrations == old(registrations) + [EmbeddedFileRegistration(baseUri, index, folder)]
    {
      var registration := EmbeddedFileRegistration(baseUri, index, folder);
      extractPath := choosePath(registrations, registration);
      registrations := registrations + [registration];
    }
  }
}
