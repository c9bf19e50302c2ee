/** Who may touch which workspace file, and the errors the file service answers with. */
module FileAccess {
  import opened Wrappers
  import opened Text
  import opened FileTree
  import opened FilePaths
  import opened Relocations

  datatype FileError =
    | NotFound | Forbidden | MissingUpdate | InvalidName | InvalidObjectType | NameTaken | Location(why: LocationError)
    | FolderContent | PreconditionRequired | StaleContent | StorageFailed(stage: StageError) | DatabaseFailed

  /** How many calls must have failed for a move to end in this error. */
  function Faults(error: FileError): nat {
    match error
    case StorageFailed(stage) => StageFaults(stage)
    case DatabaseFailed => 1
    case _ => 0
  }

  // ---------------------------------------------------------------- who may touch what

  /** The caller: an account in a tree of a workspace, with the answers of the membership query and of
      the permission check. */
  datatype Scope = Scope(workspaceID: nat, personal: bool, visibility: Visibility, accountID: nat, isMember: bool,
                         isAllowed: bool)

  function AuthorizeTree(scope: Scope): Result<Option<nat>, FileError> {
    if scope.personal then
      if scope.visibility == Private then Success(Some(scope.accountID)) else Failure(NotFound)
    else match scope.visibility
      case Private => if scope.isMember then Success(Some(scope.accountID)) else Failure(Forbidden)
      case Shared => if scope.isAllowed then Success(None) else Failure(Forbidden)
  }

  function AuthorizedFile(files: Files, scope: Scope, id: nat): Result<Node, FileError> {
    if !Live(files, id) || files[id].workspaceID != scope.workspaceID || files[id].visibility != scope.visibility then
      Failure(NotFound)
    else if files[id].visibility == Private && !scope.personal then
      if !scope.isMember || files[id].ownerAccountID != Some(scope.accountID) then Failure(NotFound)
          else Success(files[id])
    else
      var tree := AuthorizeTree(scope);
      if tree.Failure? then Failure(tree.error)
      else if tree.value.Some? && files[id].ownerAccountID != tree.value then Failure(NotFound)
      else Success(files[id])
  }

  predicate ValidParent(files: Files, scope: Scope, parent: nat, owner: Option<nat>) {
    && Live(files, parent) && files[parent].workspaceID == scope.workspaceID && files[parent].objectType == Folder
    && files[parent].visibility == scope.visibility && files[parent].ownerAccountID == owner
  }

  function ValidName(name: string): bool {
    ValidSegment(TrimSpace(name))
  }

  /** What the caller may do with trees of this kind: a private tree in a personal workspace or as a member,
      a shared one with the permission. */
  ghost predicate MayUseTree(scope: Scope) {
    match scope.visibility
    case Private => scope.personal || scope.isMember
    case Shared => !scope.personal && scope.isAllowed
  }

  /** A private tree is the caller's own, a shared one nobody's. */
  ghost function OwnerOf(scope: Scope): Option<nat> {
    if scope.visibility == Private then Some(scope.accountID) else None
  }

  lemma TreeAuthorizedMeans(scope: Scope)
    ensures AuthorizeTree(scope) ==
            if MayUseTree(scope) then Success(OwnerOf(scope))
            else Failure(if scope.personal then NotFound else Forbidden)
  {
  }

  /** A caller is told that something is forbidden only about a live shared file. */
  lemma RefusedMeans(files: Files, scope: Scope, id: nat)
    ensures var r := AuthorizedFile(files, scope, id);
            && (r.Success? ==> Live(files, id) && r.value == files[id])
            && (r.Failure? ==> r.error == NotFound || r.error == Forbidden)
            && (r == Failure(Forbidden) <==>
                  && Live(files, id) && files[id].workspaceID == scope.workspaceID
                  && files[id].visibility == scope.visibility == Shared && !scope.personal && !scope.isAllowed)
  {
  }

  /** A private file is reached only by its owner, a shared one only with the permission. */
  lemma AuthorizedMeans(files: Files, scope: Scope, id: nat)
    ensures AuthorizedFile(files, scope, id).Success? <==>
            && Live(files, id) && files[id].workspaceID == scope.workspaceID && files[id].visibility == scope.visibility
            && match scope.visibility
               case Private => files[id].ownerAccountID == Some(scope.accountID) && (scope.personal || scope.isMember)
               case Shared => !scope.personal && scope.isAllowed
  {
  }
}
