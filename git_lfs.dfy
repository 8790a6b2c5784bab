/**
 * Deciding from the output of `git lfs status` whether Git LFS is set up
 * (`is_git_lfs_installed`).
 */
module GitLfs {
  import opened Wrappers
  import opened PyStr

  /** The three phrases whose presence in the status output means "installed". */
  const ObjectsToBePushed: string := "Objects to be pushed"
  const ObjectsToBeCommitted: string := "Objects to be committed"
  const NotInGitRepository: string := "Not in a Git repository"

  /**
   * `status` is what `git lfs status` printed on standard output, or `None`
   * when the command exited with a non-zero status. Git LFS counts as
   * installed exactly when the command succeeded and its raw output (before
   * stripping) mentions one of the three phrases.
   */
  function IsGitLfsInstalled(status: Option<string>): (installed: bool)
    ensures installed <==>
      status.Some? &&
      (Contains(status.value, ObjectsToBePushed) ||
       Contains(status.value, ObjectsToBeCommitted) ||
       Contains(status.value, NotInGitRepository))
  {
    match status
    case None => false
    case Some(out) =>
      StripKeepsContains(out, ObjectsToBePushed);
      StripKeepsContains(out, ObjectsToBeCommitted);
      StripKeepsContains(out, NotInGitRepository);
      var result := Strip(out);
      if Contains(result, ObjectsToBePushed) then true
      else if Contains(result, ObjectsToBeCommitted) then true
      else if Contains(result, NotInGitRepository) then true
      else false
  }
}
