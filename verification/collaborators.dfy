/** The collaborators `Approvals` builds and hands on, kept as plain values:
    writers produce the received artifact, namers locate it, approvers run
    the comparison. Their behaviour is not part of this model. */
module Collaborators {
  import opened Wrappers

  type Byte = bv8

  /** An artifact writer. `extension` is given without a leading dot;
      `None` means the writer's own default extension. */
  datatype Writer =
    | TextWriter(text: string, extension: Option<string>)
    | BinaryWriter(bytes: seq<Byte>, binaryExtension: string)
    | ExistingFileWriter(path: string)

  datatype Namer =
    | UnitTestFrameworkNamer
    | AssemblyLocationNamer
    | AssemblyLocationAndTestNamespaceNamer
    | CustomNamer(name: string)

  /** An approver built from a writer, a namer and the line-ending flag. */
  datatype Approver =
    | FileApprover(writer: Writer, namer: Namer, ignoreLineEndings: bool)
    | CustomApprover(name: string, writer: Writer, namer: Namer, ignoreLineEndings: bool)
}
