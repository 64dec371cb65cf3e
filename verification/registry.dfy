/** The process-wide default registries of `Approvals`: one creator for the
    default namer and one for the default approver. Every setter replaces
    exactly one creator, and every later verification in the process uses it. */
module Registry {
  import opened Collaborators

  type NamerCreator = () -> Namer
  type ApproverCreator = (Writer, Namer, bool) -> Approver

  datatype Defaults = Defaults(namerCreator: NamerCreator, approverCreator: ApproverCreator)

  /** The registries at process start: UnitTestFrameworkNamer and FileApprover. */
  const Initial: Defaults :=
    Defaults(() => UnitTestFrameworkNamer, (w, n, ignore) => FileApprover(w, n, ignore))

  function RegisterDefaultApprover(d: Defaults, creator: ApproverCreator): (d': Defaults)
    ensures d'.approverCreator == creator
    ensures d'.namerCreator == d.namerCreator
  {
    d.(approverCreator := creator)
  }

  function RegisterDefaultNamerCreation(d: Defaults, creator: NamerCreator): (d': Defaults)
    ensures d'.namerCreator == creator
    ensures d'.approverCreator == d.approverCreator
  {
    d.(namerCreator := creator)
  }

  function UseAssemblyLocationForApprovedFiles(d: Defaults): (d': Defaults)
    ensures d'.approverCreator == d.approverCreator
  {
    RegisterDefaultNamerCreation(d, () => AssemblyLocationNamer)
  }

  function UseAssemblyLocationAndTestNamespaceForApprovedFiles(d: Defaults): (d': Defaults)
    ensures d'.approverCreator == d.approverCreator
  {
    RegisterDefaultNamerCreation(d, () => AssemblyLocationAndTestNamespaceNamer)
  }

  /** GetDefaultNamer: invoke the registered namer creator. */
  function GetDefaultNamer(d: Defaults): Namer {
    d.namerCreator()
  }

  /** GetDefaultApprover: invoke the registered approver creator. */
  function GetDefaultApprover(d: Defaults, writer: Writer, namer: Namer, ignoreLineEndings: bool): Approver {
    d.approverCreator(writer, namer, ignoreLineEndings)
  }

  /** At process start the default namer is the unit-test-framework namer and
      the default approver is a FileApprover over exactly the given arguments. */
  lemma InitialDefaults(writer: Writer, namer: Namer, ignoreLineEndings: bool)
    ensures GetDefaultNamer(Initial) == UnitTestFrameworkNamer
    ensures GetDefaultApprover(Initial, writer, namer, ignoreLineEndings) ==
            FileApprover(writer, namer, ignoreLineEndings)
  {
  }

  /** After RegisterDefaultNamerCreation(c), GetDefaultNamer invokes c, and the
      approver registry is untouched. */
  lemma RegisteredNamerIsUsed(d: Defaults, c: NamerCreator, writer: Writer, namer: Namer, ignore: bool)
    ensures GetDefaultNamer(RegisterDefaultNamerCreation(d, c)) == c()
    ensures GetDefaultApprover(RegisterDefaultNamerCreation(d, c), writer, namer, ignore) ==
            GetDefaultApprover(d, writer, namer, ignore)
  {
  }

  /** After RegisterDefaultApprover(c), approvers come from c and the namer
      registry is untouched. */
  lemma RegisteredApproverIsUsed(d: Defaults, c: ApproverCreator, writer: Writer, namer: Namer, ignore: bool)
    ensures GetDefaultApprover(RegisterDefaultApprover(d, c), writer, namer, ignore) == c(writer, namer, ignore)
    ensures GetDefaultNamer(RegisterDefaultApprover(d, c)) == GetDefaultNamer(d)
  {
  }

  /** The two registries are independent: registering one then the other gives
      the same state in either order, and a later registration replaces an
      earlier one of the same kind. */
  lemma RegistrationsCommuteAndOverwrite(d: Defaults, n1: NamerCreator, n2: NamerCreator, a: ApproverCreator)
    ensures RegisterDefaultApprover(RegisterDefaultNamerCreation(d, n1), a) ==
            RegisterDefaultNamerCreation(RegisterDefaultApprover(d, a), n1)
    ensures RegisterDefaultNamerCreation(RegisterDefaultNamerCreation(d, n1), n2) ==
            RegisterDefaultNamerCreation(d, n2)
  {
  }

  /** The assembly-location switches install the matching namer. */
  lemma AssemblyLocationNamersInstalled(d: Defaults)
    ensures GetDefaultNamer(UseAssemblyLocationForApprovedFiles(d)) == AssemblyLocationNamer
    ensures GetDefaultNamer(UseAssemblyLocationAndTestNamespaceForApprovedFiles(d)) ==
            AssemblyLocationAndTestNamespaceNamer
  {
  }
}
