/**
 * A snapshot of what the cleaner can observe of the filesystem. Every
 * filesystem call of the scanner is answered from here: whether a path
 * exists, what walking a directory meets, what reading a text file gives.
 */
module Fs {
  import opened Wrappers
  import opened Paths

  /** Reading one regular file's metadata gives nothing, or its size and maybe its modification time. */
  datatype FileMeta = Unreadable | Meta(size: nat, modified: Option<int>)

  /**
   * What can be observed of one directory: its own modification time (None
   * when `fs::metadata(dir)?.modified()?` fails); the regular files a
   * recursive walk that does not follow links meets, in walk order; and
   * the top-level listing of `fs::read_dir` (None when it cannot be read,
   * otherwise for each entry whether it was read without error).
   */
  datatype DirListing = DirListing(modified: Option<int>, files: seq<FileMeta>, topLevel: Option<seq<bool>>)

  /** One entry met by a directory walk, with the entries below it in walk order. */
  datatype WalkEntry = WalkEntry(path: Path, fileName: string, children: seq<WalkEntry>)

  /**
   * `existing`: the paths for which `exists()` holds. `dirs`: the directories
   * (where `is_dir()` holds) with what can be observed of each. `texts`: the
   * files that `read_to_string` reads, split into lines. `walks`: the tree a
   * walk from each path meets (a path with no entry yields nothing).
   */
  datatype FileSystem = FileSystem(
    existing: set<Path>,
    dirs: map<Path, DirListing>,
    texts: map<Path, seq<string>>,
    walks: map<Path, WalkEntry>)
}
