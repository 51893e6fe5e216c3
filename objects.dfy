/** Basic vocabulary shared by every component: names, contents, blob
    fingerprints, blob locations, and the user errors the commands report. */
module Objects {

  datatype Option<T> = None | Some(value: T)

  /** Outcome of an operation that either produces a value or reports one of
      the user errors that the command line prints before exiting. */
  datatype Result<T> = Ok(value: T) | Err(error: Error)

  type Name = string
  type Content = string
  type Branch = string
  type CommitId = string

  /** The branch init creates. */
  const Master: Branch := "master"

  /** Length of a full commit id (a SHA-1 in hexadecimal). */
  const ShaLength: nat := 40

  /** The fingerprint of a blob: the SHA-1 of its contents salted with its
      file name. It is represented by the pair it is computed from, which
      makes it injective: the same bytes under two names give two
      fingerprints, and a fingerprint determines its name. */
  datatype Fingerprint = Fp(content: Content, name: Name)

  /** The directories that hold blob files: the two staging areas and the
      permanent object directory. */
  datatype Dir = AddDir | RemoveDir | ObjectsDir

  /** A blob file is always stored in its directory under its fingerprint. */
  datatype Path = BlobPath(dir: Dir, sha: Fingerprint)

  /** Equality of two possibly missing fingerprints, where two missing ones
      are equal (Repository.myEquals). */
  function MyEquals(s1: Option<Fingerprint>, s2: Option<Fingerprint>): (r: bool)
    ensures r <==> s1 == s2
  {
    match s1
    case None => s2.None?
    case Some(x) => s2.Some? && x == s2.value
  }

  /** Two blobs share a fingerprint only when both contents and names agree. */
  lemma FingerprintInjective(c1: Content, n1: Name, c2: Content, n2: Name)
    ensures Fp(c1, n1) == Fp(c2, n2) <==> c1 == c2 && n1 == n2
  {
  }

  datatype Error =
    | FileDoesNotExist
    | NoReasonToRemove
    | EmptyMessage
    | NoChanges
    | NoCommitWithId
    | FileNotInCommit
    | NoSuchBranch
    | NoNeedToCheckout
    | BranchExists
    | CannotRemoveCurrent
    | BranchDoesNotExist
    | UncommittedChanges
    | MergeWithSelf
    | GivenIsAncestor
    | UntrackedInTheWay
    | NoCommitWithMessage

  /** The line printed for each error. */
  function Message(e: Error): string
  {
    match e
    case FileDoesNotExist => "File does not exist."
    case NoReasonToRemove => "No reason to remove the file."
    case EmptyMessage => "Please enter a commit message."
    case NoChanges => "No changes added to the commit."
    case NoCommitWithId => "No commit with that id exists."
    case FileNotInCommit => "File does not exist in that commit."
    case NoSuchBranch => "No such branch exists."
    case NoNeedToCheckout => "No need to checkout the current branch."
    case BranchExists => "A branch with that name already exists."
    case CannotRemoveCurrent => "Cannot remove the current branch."
    case BranchDoesNotExist => "A branch with that name does not exist."
    case UncommittedChanges => "You have uncommitted changes."
    case MergeWithSelf => "Cannot merge a branch with itself."
    case GivenIsAncestor => "Given branch is an ancestor of the current branch."
    case UntrackedInTheWay => "There is an untracked file in the way; delete it, or add and commit it first."
    case NoCommitWithMessage => "Found no commit with that message"
  }
}
