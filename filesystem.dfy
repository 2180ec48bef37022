/**
 * The part of the operating system's file system that the server's set-up
 * code uses: a tree of directories and files addressed by paths, with the
 * operations `os.ReadDir`, `os.Remove`, `os.WriteFile`, `os.Mkdir` and
 * `os.Stat`. A path is the sequence of its elements; the empty path is the
 * directory the paths are relative to, which always exists.
 *
 * Which paths the process may not change is fixed by `locked`: an
 * operation on one of them fails, as a permission error would.
 */
module FileSystems {
  import opened Wrappers

  type Path = seq<string>

  datatype Entry = Dir | File(content: string)

  /** What `os.ReadDir` reports for each entry: its name and whether it is a directory. */
  datatype DirEntry = DirEntry(name: string, isDir: bool)

  /** Go's `*fs.PathError`: the operation that failed and its path. */
  datatype FsError = PathError(op: string, path: Path)

  /** A change made to the file system, in the order made. */
  datatype Change = Removed(path: Path) | Wrote(path: Path, content: string) | Made(path: Path)

  /** `q` is an entry directly inside `base`. */
  predicate ChildOf(q: Path, base: Path)
  {
    |q| == |base| + 1 && q[..|base|] == base
  }

  /** Some entry lies directly inside `p`. */
  predicate HasChildrenIn(entries: map<Path, Entry>, p: Path)
  {
    exists q :: q in entries && ChildOf(q, p)
  }

  /** The entry `p` lies in a directory: the base, or a directory entry. */
  predicate InDirectory(entries: map<Path, Entry>, p: Path)
  {
    |p| > 1 ==> p[..|p| - 1] in entries && entries[p[..|p| - 1]].Dir?
  }

  /** Every entry lies in a directory. */
  predicate WellFormed(entries: map<Path, Entry>)
  {
    && [] !in entries
    && forall p {:trigger InDirectory(entries, p)} :: p in entries ==> InDirectory(entries, p)
  }

  /** `e1` and `e2` agree on every path that is not directly inside `base`. */
  ghost predicate SameOutside(e1: map<Path, Entry>, e2: map<Path, Entry>, base: Path)
  {
    forall q :: !ChildOf(q, base) ==> (q in e1 <==> q in e2) && (q in e1 ==> e1[q] == e2[q])
  }

  /** Each entry of `list` is an entry directly inside `base`, with its kind. */
  predicate Listed(list: seq<DirEntry>, entries: map<Path, Entry>, base: Path)
  {
    forall i :: 0 <= i < |list| ==> base + [list[i].name] in entries && list[i].isDir == entries[base + [list[i].name]].Dir?
  }

  /** No name appears twice in `list`. */
  predicate DistinctNames(list: seq<DirEntry>)
  {
    forall i, j :: 0 <= i < j < |list| ==> list[i].name != list[j].name
  }

  /** `list` names every entry directly inside `base`, each once, with its kind. */
  predicate Lists(list: seq<DirEntry>, entries: map<Path, Entry>, base: Path)
  {
    && Listed(list, entries, base)
    && DistinctNames(list)
    && (forall q :: q in entries && ChildOf(q, base) ==> exists i :: 0 <= i < |list| && q == base + [list[i].name])
  }

  /**
   * Part way through listing `base`: `list` holds the entries listed so
   * far and `pending` the rest.
   */
  predicate Listing(list: seq<DirEntry>, pending: set<Path>, entries: map<Path, Entry>, base: Path)
  {
    && Listed(list, entries, base)
    && DistinctNames(list)
    && (forall q :: q in pending ==> q in entries && ChildOf(q, base))
    && (forall i :: 0 <= i < |list| ==> base + [list[i].name] !in pending)
    && (forall q :: q in entries && ChildOf(q, base) ==> q in pending || exists i :: 0 <= i < |list| && q == base + [list[i].name])
  }

  /** Listing one more pending entry keeps the listing consistent. */
  lemma ListingStep(list: seq<DirEntry>, pending: set<Path>, entries: map<Path, Entry>, base: Path, q: Path)
    requires Listing(list, pending, entries, base) && q in pending
    ensures Listing(list + [DirEntry(q[|base|], entries[q].Dir?)], pending - {q}, entries, base)
  {
    var list' := list + [DirEntry(q[|base|], entries[q].Dir?)];
    assert q == base + [q[|base|]];
    forall q' | q' in entries && ChildOf(q', base) && q' !in pending - {q}
      ensures exists i :: 0 <= i < |list'| && q' == base + [list'[i].name]
    {
      if q' == q {
        assert q' == base + [list'[|list|].name];
      } else {
        var i :| 0 <= i < |list| && q' == base + [list[i].name];
        assert list'[i] == list[i];
      }
    }
  }

  /** A path that is not a directory has nothing inside it. */
  lemma NoChildrenOutsideDirs(entries: map<Path, Entry>, base: Path)
    requires WellFormed(entries)
    requires base != [] && !(base in entries && entries[base].Dir?)
    ensures forall q :: ChildOf(q, base) ==> q !in entries
  {
    forall q | ChildOf(q, base)
      ensures q !in entries
    {
      assert q[..|q| - 1] == base;
      assert q in entries ==> InDirectory(entries, q);
    }
  }

  class FileSystem {
    var entries: map<Path, Entry>
    var changes: seq<Change>
    const locked: set<Path>

    ghost predicate Valid()
      reads this
    {
      WellFormed(entries)
    }

    constructor(entries: map<Path, Entry>, locked: set<Path>)
      requires WellFormed(entries)
      ensures Valid()
      ensures this.entries == entries && this.locked == locked && changes == []
    {
      this.entries := entries;
      this.locked := locked;
      changes := [];
    }

    /** `os.Stat(p)` succeeds. */
    predicate Exists(p: Path)
      reads this
    {
      p == [] || p in entries
    }

    predicate IsDir(p: Path)
      reads this
    {
      p == [] || (p in entries && entries[p].Dir?)
    }

    predicate HasChildren(p: Path)
      reads this
    {
      HasChildrenIn(entries, p)
    }

    /**
     * `os.ReadDir(p)`: every entry directly inside the directory `p`, in
     * some order; an error when `p` is not a directory: opening a missing
     * path fails, and reading the entries of a file fails.
     */
    method ReadDir(p: Path) returns (list: seq<DirEntry>, err: Option<FsError>)
      ensures err.None? <==> IsDir(p)
      ensures err.Some? ==> list == [] && err == Some(PathError(if Exists(p) then "readdirent" else "open", p))
      ensures err.None? ==> Lists(list, entries, p)
    {
      if !Exists(p) {
        return [], Some(PathError("open", p));
      }
      if !IsDir(p) {
        return [], Some(PathError("readdirent", p));
      }
      var pending := set q | q in entries && ChildOf(q, p);
      list := [];
      while pending != {}
        invariant Listing(list, pending, entries, p)
        decreases |pending|
      {
        var q :| q in pending;
        ListingStep(list, pending, entries, p, q);
        list := list + [DirEntry(q[|p|], entries[q].Dir?)];
        pending := pending - {q};
      }
      err := None;
    }

    /**
     * `os.Remove(p)`: removes a file or an empty directory; fails on a
     * missing, locked or non-empty one.
     */
    method Remove(p: Path) returns (err: Option<FsError>)
      requires Valid()
      modifies this
      ensures Valid()
      ensures err.None? <==> p in old(entries) && p !in locked && !(old(entries)[p].Dir? && old(HasChildren(p)))
      ensures err.None? ==> entries == old(entries) - {p} && changes == old(changes) + [Removed(p)]
      ensures err.Some? ==> err == Some(PathError("remove", p)) && entries == old(entries) && changes == old(changes)
    {
      if p !in entries || p in locked || (entries[p].Dir? && HasChildren(p)) {
        return Some(PathError("remove", p));
      }
      ghost var before := entries;
      entries := entries - {p};
      changes := changes + [Removed(p)];
      forall q | q in entries
        ensures InDirectory(entries, q)
      {
        assert InDirectory(before, q);
        if |q| > 1 && q[..|q| - 1] == p {
          assert ChildOf(q, p);
        }
      }
      err := None;
    }

    /**
     * `os.WriteFile(p, content)`: creates or truncates the file `p`; fails
     * when `p` is locked or a directory, or its directory does not exist.
     */
    method WriteFile(p: Path, content: string) returns (err: Option<FsError>)
      requires Valid()
      modifies this
      ensures Valid()
      ensures err.None? <==> p != [] && p !in locked && !old(IsDir(p)) && old(IsDir(p[..|p| - 1]))
      ensures err.None? ==> entries == old(entries)[p := File(content)] && changes == old(changes) + [Wrote(p, content)]
      ensures err.Some? ==> err == Some(PathError("open", p)) && entries == old(entries) && changes == old(changes)
    {
      if p == [] || p in locked || IsDir(p) || !IsDir(p[..|p| - 1]) {
        return Some(PathError("open", p));
      }
      ghost var before := entries;
      entries := entries[p := File(content)];
      changes := changes + [Wrote(p, content)];
      forall q | q in entries
        ensures InDirectory(entries, q)
      {
        if q != p {
          assert InDirectory(before, q);
        } else {
          assert InDirectory(before, q) || |q| > 1;
        }
      }
      err := None;
    }

    /**
     * `os.Mkdir(p)`: creates the directory `p`; fails when `p` exists or is
     * locked, or its directory does not exist.
     */
    method Mkdir(p: Path) returns (err: Option<FsError>)
      requires Valid()
      modifies this
      ensures Valid()
      ensures err.None? <==> !old(Exists(p)) && p !in locked && old(IsDir(p[..|p| - 1]))
      ensures err.None? ==> entries == old(entries)[p := Dir] && changes == old(changes) + [Made(p)]
      ensures err.Some? ==> err == Some(PathError("mkdir", p)) && entries == old(entries) && changes == old(changes)
    {
      if Exists(p) || p in locked || !IsDir(p[..|p| - 1]) {
        return Some(PathError("mkdir", p));
      }
      ghost var before := entries;
      entries := entries[p := Dir];
      changes := changes + [Made(p)];
      forall q | q in entries
        ensures InDirectory(entries, q)
      {
        if q != p {
          assert InDirectory(before, q);
        }
      }
      err := None;
    }
  }

}
