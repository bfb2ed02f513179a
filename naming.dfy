/**
 * How `install` derives names from a resource's `src`: the Hugging Face
 * split into repository id and file path, and `Zoomaker._get_repo_name` for
 * git sources.
 */
module Naming {
  import opened Text

  /** The three names `install` computes from a Hugging Face `src`. */
  datatype HubTarget = HubTarget(repoId: string, repoFilepath: string, repoFilename: string)

  function Min(a: int, b: int): int
  {
    if a < b then a else b
  }

  /**
   * `repo_id` is `"/".join(src.split("/")[0:2])`, `repo_filepath` is
   * `"/".join(src.split("/")[2:])`, `repo_filename` its basename.
   */
  function HubSplit(src: string): HubTarget
  {
    var parts := Split(src, '/');
    var cut := Min(2, |parts|);
    var filepath := JoinWith(parts[cut..], '/');
    HubTarget(JoinWith(parts[..cut], '/'), filepath, Basename(filepath))
  }

  /**
   * The repository id is the first two segments of `src` and the file path
   * the rest: with three or more segments they rejoin to `src`, and the file
   * name is the last segment; with fewer, the id is all of `src` and the
   * path and name are empty.
   */
  lemma HubSplitSegments(src: string)
    ensures var t := HubSplit(src);
      var parts := Split(src, '/');
      && (|parts| >= 3 ==> t.repoId + "/" + t.repoFilepath == src)
      && (|parts| >= 2 ==> Split(t.repoId, '/') == parts[..2])
      && (|parts| >= 3 ==> Split(t.repoFilepath, '/') == parts[2..])
      && (|parts| >= 3 ==> t.repoFilename == parts[|parts| - 1])
      && (|parts| < 3 ==> t.repoId == src && t.repoFilepath == "" && t.repoFilename == "")
  {
    var t := HubSplit(src);
    var parts := Split(src, '/');
    JoinSplit(src, '/');
    if |parts| >= 2 {
      SplitJoin(parts[..2], '/');
    }
    if |parts| >= 3 {
      assert parts == parts[..2] + parts[2..];
      JoinAppend(parts[..2], parts[2..], '/');
      SplitJoin(parts[2..], '/');
    } else {
      assert parts[..|parts|] == parts;
      assert Split("", '/') == [""];
    }
  }

  /** `repo_name` of `_get_repo_name`: `basename(src)` with `.git` removed when `src` ends with `.git`. */
  function RepoName(src: string): string
  {
    if EndsWith(src, ".git") then RemoveAll(Basename(src), ".git") else Basename(src)
  }

  /**
   * Without a `.git` ending the repo name is the plain basename. With one,
   * the basename ends in `.git` too; the name is the basename without that
   * suffix and with every other `.git` inside it removed, and so just the
   * basename without the suffix when no other `.git` occurs. It never holds
   * a `/`.
   */
  lemma RepoNameSpec(src: string)
    ensures '/' !in RepoName(src)
    ensures !EndsWith(src, ".git") ==> RepoName(src) == Basename(src)
    ensures EndsWith(src, ".git") ==>
      var b := Basename(src);
      && |b| >= 4 && EndsWith(b, ".git")
      && RepoName(src) == RemoveAll(b[..|b| - 4], ".git")
      && (!Contains(b[..|b| - 4], ".git") ==> RepoName(src) == b[..|b| - 4])
  {
    var b := Basename(src);
    BasenameSpec(src);
    if EndsWith(src, ".git") {
      var stem := b[..|b| - 4];
      assert b[|b| - 4..] == src[|src| - 4..];
      assert b == stem + ".git";
      RemoveAllGitSuffix(stem);
      if !Contains(stem, ".git") {
        RemoveAllAbsent(stem, ".git");
      }
    }
  }
}
