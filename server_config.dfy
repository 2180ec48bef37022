/**
 * The server's configuration, and the set-up it performs on the file system
 * before serving: creating the directory that holds the repositories, and
 * installing the configured hook scripts into the `hooks` directory of every
 * repository in it.
 */
module ServerConfig {
  import opened Wrappers
  import opened Strings
  import opened FileSystems

  /** The scripts to install; an empty one is not installed. */
  datatype HookScripts = HookScripts(preReceive: string, update: string, postReceive: string)

  datatype Config = Config(hooks: HookScripts, dir: string, gitPath: string, autoCreate: bool, autoHooks: bool, auth: bool)

  /** The file names the scripts are installed under. */
  const ScriptNames: seq<string> := ["pre-receive", "update", "post-receive"]

  /** The scripts by file name, as the map `createHooksDir` builds. */
  function Scripts(h: HookScripts): (m: map<string, string>)
    ensures forall n :: n in m <==> n in ScriptNames
  {
    map["pre-receive" := h.preReceive, "update" := h.update, "post-receive" := h.postReceive]
  }

  /** The elements of a slash-separated directory name, without empty and `.` elements. */
  function PathOf(dir: string): Path
  {
    Elements(Split(dir, '/'))
  }

  function Elements(parts: seq<string>): (elems: Path)
    ensures forall i :: 0 <= i < |elems| ==> elems[i] != "" && elems[i] != "."
  {
    if parts == [] then []
    else if parts[0] == "" || parts[0] == "." then Elements(parts[1..])
    else [parts[0]] + Elements(parts[1..])
  }

  /** The `hooks` directory of the repository at `repo`. */
  function HooksDir(repo: Path): Path
  {
    repo + ["hooks"]
  }

  /** The directory `base` holds exactly the non-empty scripts, each under its name and with its content. */
  ghost predicate Installed(entries: map<Path, Entry>, base: Path, h: HookScripts)
  {
    forall q :: ChildOf(q, base) ==>
      && (q in entries <==> q[|base|] in Scripts(h) && Scripts(h)[q[|base|]] != "")
      && (q in entries ==> entries[q] == File(Scripts(h)[q[|base|]]))
  }

  /** `os.Remove` of `q` succeeds: it exists, is not locked, and is a file or an empty directory. */
  ghost predicate Removable(entries: map<Path, Entry>, locked: set<Path>, q: Path)
  {
    q in entries && q !in locked && !(entries[q].Dir? && HasChildrenIn(entries, q))
  }

  /** Every entry directly inside `base` can be removed. */
  ghost predicate Clearable(entries: map<Path, Entry>, locked: set<Path>, base: Path)
  {
    forall q :: q in entries && ChildOf(q, base) ==> Removable(entries, locked, q)
  }

  /** Every non-empty script can be written into `base`: it is a directory and no script's path is locked. */
  ghost predicate Writable(entries: map<Path, Entry>, locked: set<Path>, base: Path, scripts: map<string, string>)
  {
    forall n :: n in scripts && scripts[n] != "" ==> base in entries && entries[base].Dir? && base + [n] !in locked
  }

  /** `createHooksDir` succeeds on the repository `repo`: its hooks directory can be emptied and written. */
  ghost predicate Installable(entries: map<Path, Entry>, locked: set<Path>, repo: Path, hooks: HookScripts)
  {
    Clearable(entries, locked, HooksDir(repo)) && Writable(entries, locked, HooksDir(repo), Scripts(hooks))
  }

  /**
   * The setting of `TestHookScripts_Setup`: an existing, empty, writable hooks
   * directory and three non-empty scripts. `createHooksDir` then succeeds, and
   * whatever it leaves installed holds exactly the three scripts.
   */
  lemma EmptyHooksDirInstalls(entries: map<Path, Entry>, locked: set<Path>, path: Path, h: HookScripts)
    requires HooksDir(path) in entries && entries[HooksDir(path)].Dir?
    requires !HasChildrenIn(entries, HooksDir(path))
    requires forall n :: n in ScriptNames ==> HooksDir(path) + [n] !in locked
    requires h.preReceive != "" && h.update != "" && h.postReceive != ""
    ensures Installable(entries, locked, path, h)
    ensures forall e :: Installed(e, HooksDir(path), h) ==>
      && HooksDir(path) + ["pre-receive"] in e && e[HooksDir(path) + ["pre-receive"]] == File(h.preReceive)
      && HooksDir(path) + ["update"] in e && e[HooksDir(path) + ["update"]] == File(h.update)
      && HooksDir(path) + ["post-receive"] in e && e[HooksDir(path) + ["post-receive"]] == File(h.postReceive)
      && (forall q :: q in e && ChildOf(q, HooksDir(path)) ==> q[|HooksDir(path)|] in ScriptNames)
  {
    var base := HooksDir(path);
    forall e | Installed(e, base, h)
      ensures base + ["pre-receive"] in e && e[base + ["pre-receive"]] == File(h.preReceive)
      ensures base + ["update"] in e && e[base + ["update"]] == File(h.update)
      ensures base + ["post-receive"] in e && e[base + ["post-receive"]] == File(h.postReceive)
    {
      assert ChildOf(base + ["pre-receive"], base) && (base + ["pre-receive"])[|base|] == "pre-receive";
      assert ChildOf(base + ["update"], base) && (base + ["update"])[|base|] == "update";
      assert ChildOf(base + ["post-receive"], base) && (base + ["post-receive"])[|base|] == "post-receive";
    }
  }

  /** `e1` and `e2` agree on every path directly inside `base`. */
  ghost predicate SameInside(e1: map<Path, Entry>, e2: map<Path, Entry>, base: Path)
  {
    forall q :: ChildOf(q, base) ==> (q in e1 <==> q in e2) && (q in e1 ==> e1[q] == e2[q])
  }

  /** Whether `q` can be removed depends only on `q` and what is directly inside it. */
  lemma SameRemovable(e1: map<Path, Entry>, e2: map<Path, Entry>, locked: set<Path>, q: Path)
    requires (q in e1 <==> q in e2) && (q in e1 ==> e1[q] == e2[q]) && SameInside(e1, e2, q)
    ensures Removable(e1, locked, q) <==> Removable(e2, locked, q)
  {
    if HasChildrenIn(e1, q) {
      var r :| r in e1 && ChildOf(r, q);
      assert r in e2;
    }
    if HasChildrenIn(e2, q) {
      var r :| r in e2 && ChildOf(r, q);
      assert r in e1;
    }
  }

  /** Removing entries directly inside `base` leaves every remaining one as removable as it was. */
  lemma RemovableAfterRemovals(e0: map<Path, Entry>, e: map<Path, Entry>, locked: set<Path>, base: Path, q: Path)
    requires ChildOf(q, base) && q in e && SameOutside(e0, e, base)
    requires forall r :: r in e ==> r in e0 && e[r] == e0[r]
    ensures Removable(e, locked, q) <==> Removable(e0, locked, q)
  {
    forall r | ChildOf(r, q)
      ensures (r in e0 <==> r in e) && (r in e0 ==> e0[r] == e[r])
    {
      assert !ChildOf(r, base);
    }
    SameRemovable(e0, e, locked, q);
  }

  /** `changes` extends `before`. */
  predicate Extends(changes: seq<Change>, before: seq<Change>)
  {
    |before| <= |changes| && changes[..|before|] == before
  }

  /** The changes from position `from` up to `to` are removals. */
  predicate RemovalsIn(changes: seq<Change>, from: nat, to: nat)
  {
    forall i :: from <= i < to && i < |changes| ==> changes[i].Removed?
  }

  /** The changes from position `from` on write non-empty scripts directly into `base`. */
  predicate WritesInto(changes: seq<Change>, from: nat, base: Path)
  {
    forall i :: from <= i < |changes| ==> changes[i].Wrote? && ChildOf(changes[i].path, base) && changes[i].content != ""
  }

  /** No change from position `from` on makes a directory. */
  predicate NoneMade(changes: seq<Change>, from: nat)
  {
    forall i :: from <= i < |changes| ==> !changes[i].Made?
  }

  /** Extending is transitive, and an extension keeps the earlier changes in place. */
  lemma ExtendsTrans(c0: seq<Change>, c1: seq<Change>, c2: seq<Change>)
    requires Extends(c1, c0) && Extends(c2, c1)
    ensures Extends(c2, c0)
    ensures forall i :: 0 <= i < |c1| ==> c2[i] == c1[i]
  {
    assert c2[..|c0|] == c2[..|c1|][..|c0|];
    forall i | 0 <= i < |c1|
      ensures c2[i] == c1[i]
    {
      assert c2[..|c1|][i] == c2[i];
    }
  }

  /** One more change keeps the extension. */
  lemma ExtendsByOne(c0: seq<Change>, cb: seq<Change>, ch: Change)
    requires Extends(cb, c0)
    ensures Extends(cb + [ch], c0)
  {
    assert (cb + [ch])[..|c0|] == cb[..|c0|];
  }

  /** One more removal keeps the extension made of removals. */
  lemma RemovedByOne(c0: seq<Change>, cb: seq<Change>, ch: Change)
    requires Extends(cb, c0) && RemovalsIn(cb, |c0|, |cb|) && ch.Removed?
    ensures Extends(cb + [ch], c0) && RemovalsIn(cb + [ch], |c0|, |cb| + 1)
  {
    ExtendsByOne(c0, cb, ch);
  }

  /** One more write of a script into `base` keeps the extension made of such writes. */
  lemma WroteByOne(c0: seq<Change>, cb: seq<Change>, base: Path, name: string, content: string)
    requires Extends(cb, c0) && WritesInto(cb, |c0|, base) && content != ""
    ensures Extends(cb + [Wrote(base + [name], content)], c0) && WritesInto(cb + [Wrote(base + [name], content)], |c0|, base)
  {
    ExtendsByOne(c0, cb, Wrote(base + [name], content));
    assert ChildOf(base + [name], base);
  }

  /** Removals made after earlier ones stay in place when more changes follow. */
  lemma RemovalsKept(c0: seq<Change>, c1: seq<Change>, c2: seq<Change>)
    requires Extends(c1, c0) && Extends(c2, c1) && RemovalsIn(c1, |c0|, |c1|)
    ensures Extends(c2, c0) && RemovalsIn(c2, |c0|, |c1|)
  {
    ExtendsTrans(c0, c1, c2);
  }

  /** Removals, then writes, after changes that make no directory, make none either. */
  lemma NoneMadeAfter(c0: seq<Change>, cb: seq<Change>, c: seq<Change>, mid: nat, base: Path)
    requires Extends(cb, c0) && NoneMade(cb, |c0|) && Extends(c, cb)
    requires |cb| <= mid <= |c| && RemovalsIn(c, |cb|, mid) && WritesInto(c, mid, base)
    ensures Extends(c, c0) && NoneMade(c, |c0|)
  {
    ExtendsTrans(c0, cb, c);
  }

  /**
   * `HookScripts.createHooksDir`: empties `<path>/hooks`, if it can be
   * listed, entry by entry, then writes every non-empty script into it.
   * It stops at the first failure and returns it. The scripts are visited
   * in an order that is not fixed, as Go's map iteration is not. The
   * changes it makes are removals up to position `mid`, then writes.
   */
  method CreateHooksDir(fs: FileSystem, hooks: HookScripts, path: Path) returns (err: Option<FsError>, ghost mid: nat)
    requires fs.Valid()
    modifies fs
    ensures fs.Valid()
    ensures SameOutside(old(fs.entries), fs.entries, HooksDir(path))
    ensures err.None? ==> Installed(fs.entries, HooksDir(path), hooks)
    ensures err.None? <==> Installable(old(fs.entries), fs.locked, path, hooks)
    ensures Extends(fs.changes, old(fs.changes))
    ensures |old(fs.changes)| <= mid <= |fs.changes|
    ensures RemovalsIn(fs.changes, |old(fs.changes)|, mid) && WritesInto(fs.changes, mid, HooksDir(path))
    ensures !old(fs.IsDir(HooksDir(path))) ==> mid == |old(fs.changes)|
    ensures err.Some? && err.value.op == "remove" ==> mid == |fs.changes|
  {
    var base := HooksDir(path);
    ghost var e0, c0 := fs.entries, fs.changes;
    err := ClearHooksDir(fs, base);
    mid := |fs.changes|;
    if err.Some? {
      return;
    }
    ghost var c1 := fs.changes;
    var scripts := Scripts(hooks);
    var order: seq<string> :| multiset(order) == multiset(ScriptNames);
    OrderNames(order);
    assert !ChildOf(base, base);
    err := WriteScripts(fs, base, scripts, order);
    RemovalsKept(c0, c1, fs.changes);
    if err.None? {
      WrittenIsInstalled(fs.entries, base, hooks);
    }
  }

  /**
   * The first half of `createHooksDir`: when `base` can be listed, each
   * entry listed is removed, stopping at the first failure.
   */
  method ClearHooksDir(fs: FileSystem, base: Path) returns (err: Option<FsError>)
    requires fs.Valid() && base != []
    modifies fs
    ensures fs.Valid()
    ensures SameOutside(old(fs.entries), fs.entries, base)
    ensures err.None? ==> forall q :: ChildOf(q, base) ==> q !in fs.entries
    ensures err.None? <==> Clearable(old(fs.entries), fs.locked, base)
    ensures err.Some? ==> err.value.op == "remove"
    ensures Extends(fs.changes, old(fs.changes))
    ensures RemovalsIn(fs.changes, |old(fs.changes)|, |fs.changes|)
    ensures !old(fs.IsDir(base)) ==> fs.changes == old(fs.changes) && err.None?
  {
    ghost var e0, c0 := fs.entries, fs.changes;
    var files, listErr := fs.ReadDir(base);
    if listErr.Some? {
      NoChildrenOutsideDirs(e0, base);
      return None;
    }
    var i := 0;
    while i < |files|
      invariant 0 <= i <= |files|
      invariant fs.Valid()
      invariant SameOutside(e0, fs.entries, base)
      invariant Clearing(e0, fs.entries, fs.locked, base, files, i)
      invariant Extends(fs.changes, c0) && RemovalsIn(fs.changes, |c0|, |fs.changes|)
    {
      ghost var eb, cb := fs.entries, fs.changes;
      var p := base + [files[i].name];
      ClearingNext(e0, eb, fs.locked, base, files, i);
      var e := fs.Remove(p);
      if e.Some? {
        return e;
      }
      RemovedByOne(c0, cb, Removed(p));
      i := i + 1;
    }
    forall q | ChildOf(q, base) && q in e0
      ensures q !in fs.entries && Removable(e0, fs.locked, q)
    {
      var j :| 0 <= j < |files| && q == base + [files[j].name];
    }
    err := None;
  }

  /**
   * The state of `ClearHooksDir` after removing the first `i` listed entries of `base`
   * from `e0`: `e` lost exactly those, and each of them was removable in `e0`.
   */
  ghost predicate Clearing(e0: map<Path, Entry>, e: map<Path, Entry>, locked: set<Path>, base: Path, files: seq<DirEntry>, i: nat)
  {
    && i <= |files|
    && SameOutside(e0, e, base)
    && (forall q :: q in e ==> q in e0 && e[q] == e0[q])
    && (forall j :: 0 <= j < i ==> base + [files[j].name] !in e)
    && (forall j :: i <= j < |files| ==> base + [files[j].name] in e)
    && (forall j :: 0 <= j < i ==> Removable(e0, locked, base + [files[j].name]))
  }

  /**
   * The `i`-th listed entry is removable now exactly when it was in `e0`, and removing it
   * moves `Clearing` on to `i + 1`.
   */
  lemma ClearingNext(e0: map<Path, Entry>, e: map<Path, Entry>, locked: set<Path>, base: Path, files: seq<DirEntry>, i: nat)
    requires DistinctNames(files) && i < |files|
    requires Clearing(e0, e, locked, base, files, i)
    ensures ChildOf(base + [files[i].name], base) && base + [files[i].name] in e0
    ensures Removable(e, locked, base + [files[i].name]) <==> Removable(e0, locked, base + [files[i].name])
    ensures Removable(e, locked, base + [files[i].name]) ==>
              Clearing(e0, e - {base + [files[i].name]}, locked, base, files, i + 1)
  {
    var p := base + [files[i].name];
    assert ChildOf(p, base);
    RemovableAfterRemovals(e0, e, locked, base, p);
    forall j | i < j < |files|
      ensures base + [files[j].name] != p
    {
      assert (base + [files[j].name])[|base|] == files[j].name;
      assert p[|base|] == files[i].name;
    }
  }

  /** The names in any order of the script names are the script names. */
  lemma OrderNames(order: seq<string>)
    requires multiset(order) == multiset(ScriptNames)
    ensures forall j :: 0 <= j < |order| ==> order[j] in ScriptNames
    ensures forall n :: n in ScriptNames ==> n in order
  {
    forall j | 0 <= j < |order|
      ensures order[j] in ScriptNames
    {
      assert order[j] in multiset(order);
    }
    forall n | n in ScriptNames
      ensures n in order
    {
      assert n in multiset(ScriptNames);
    }
  }

  /**
   * The second half of `createHooksDir`: each non-empty script, in the
   * order `order` gives their names, is written into the emptied `base`,
   * stopping at the first failure.
   */
  method WriteScripts(fs: FileSystem, base: Path, scripts: map<string, string>, order: seq<string>) returns (err: Option<FsError>)
    requires fs.Valid() && base != []
    requires forall q :: ChildOf(q, base) ==> q !in fs.entries
    requires forall j :: 0 <= j < |order| ==> order[j] in scripts
    requires forall n :: n in scripts ==> n in order
    modifies fs
    ensures fs.Valid()
    ensures SameOutside(old(fs.entries), fs.entries, base)
    ensures err.None? ==> HoldsWritten(fs.entries, base, scripts, set n | n in scripts && scripts[n] != "")
    ensures err.None? <==> Writable(old(fs.entries), fs.locked, base, scripts)
    ensures err.Some? ==> err.value.op == "open"
    ensures Extends(fs.changes, old(fs.changes)) && WritesInto(fs.changes, |old(fs.changes)|, base)
  {
    ghost var e0, c0 := fs.entries, fs.changes;
    ghost var written: set<string> := {};
    var k := 0;
    while k < |order|
      invariant 0 <= k <= |order|
      invariant fs.Valid()
      invariant Writing(e0, fs.entries, fs.locked, base, scripts, order, k, written)
      invariant Extends(fs.changes, c0) && WritesInto(fs.changes, |c0|, base)
    {
      var name := order[k];
      var script := scripts[name];
      if script != "" {
        ghost var cb, eb := fs.changes, fs.entries;
        WritingNext(e0, eb, fs.locked, base, scripts, order, k, written);
        var e := fs.WriteFile(base + [name], script);
        if e.Some? {
          return e;
        }
        WroteByOne(c0, cb, base, name, script);
        written := written + {name};
      }
      k := k + 1;
    }
    AllWritten(e0, fs.entries, fs.locked, base, scripts, order, written);
    err := None;
  }

  /**
   * The state of `WriteScripts` after visiting the first `k` names of `order`: `e`
   * holds exactly the non-empty scripts among them, and `base` was a directory in
   * `e0` with none of their paths locked.
   */
  ghost predicate Writing(e0: map<Path, Entry>, e: map<Path, Entry>, locked: set<Path>, base: Path, scripts: map<string, string>, order: seq<string>, k: nat, written: set<string>)
  {
    && k <= |order|
    && (forall j :: 0 <= j < |order| ==> order[j] in scripts)
    && SameOutside(e0, e, base)
    && (forall n :: n in written ==> n in scripts && scripts[n] != "")
    && HoldsWritten(e, base, scripts, written)
    && (forall j :: 0 <= j < k && scripts[order[j]] != "" ==> order[j] in written)
    && (forall j :: 0 <= j < k && scripts[order[j]] != "" ==> base in e0 && e0[base].Dir? && base + [order[j]] !in locked)
  }

  /**
   * Writing the `k`-th script into `base` succeeds exactly when `base` was a directory
   * in `e0` and its path is not locked, and then moves `Writing` on to `k + 1`.
   */
  lemma WritingNext(e0: map<Path, Entry>, e: map<Path, Entry>, locked: set<Path>, base: Path, scripts: map<string, string>, order: seq<string>, k: nat, written: set<string>)
    requires base != [] && k < |order| && order[k] in scripts && scripts[order[k]] != ""
    requires Writing(e0, e, locked, base, scripts, order, k, written)
    ensures var p := base + [order[k]];
      && (p != [] && p !in locked && !(p in e && e[p].Dir?) && base in e && e[base].Dir? && p[..|p| - 1] == base
          <==> base in e0 && e0[base].Dir? && p !in locked)
      && (base in e0 && e0[base].Dir? && p !in locked ==>
            Writing(e0, e[p := File(scripts[order[k]])], locked, base, scripts, order, k + 1, written + {order[k]}))
  {
    var name := order[k];
    var p := base + [name];
    assert !ChildOf(base, base);
    assert ChildOf(p, base);
    WrittenSoFar(e, e[p := File(scripts[name])], base, scripts, written, name);
  }

  /** Visiting every name writes every non-empty script, each into a writable place. */
  lemma AllWritten(e0: map<Path, Entry>, e: map<Path, Entry>, locked: set<Path>, base: Path, scripts: map<string, string>, order: seq<string>, written: set<string>)
    requires forall n :: n in scripts ==> n in order
    requires Writing(e0, e, locked, base, scripts, order, |order|, written)
    ensures written == set n | n in scripts && scripts[n] != ""
    ensures HoldsWritten(e, base, scripts, set n | n in scripts && scripts[n] != "")
    ensures Writable(e0, locked, base, scripts)
  {
    forall n | n in scripts && scripts[n] != ""
      ensures n in written && base in e0 && e0[base].Dir? && base + [n] !in locked
    {
      var j :| 0 <= j < |order| && order[j] == n;
    }
  }

  /** Holding exactly the non-empty scripts is having them installed. */
  lemma WrittenIsInstalled(entries: map<Path, Entry>, base: Path, hooks: HookScripts)
    requires HoldsWritten(entries, base, Scripts(hooks), set n | n in Scripts(hooks) && Scripts(hooks)[n] != "")
    ensures Installed(entries, base, hooks)
  {
  }

  /** `base` holds exactly the scripts named in `written`, with their contents. */
  ghost predicate HoldsWritten(entries: map<Path, Entry>, base: Path, scripts: map<string, string>, written: set<string>)
    requires forall n :: n in written ==> n in scripts
  {
    forall q :: ChildOf(q, base) ==>
      && (q in entries <==> q[|base|] in written)
      && (q in entries ==> entries[q] == File(scripts[q[|base|]]))
  }

  /** Writing one more script into `base` keeps `HoldsWritten` and `SameOutside`. */
  lemma WrittenSoFar(e1: map<Path, Entry>, e2: map<Path, Entry>, base: Path, scripts: map<string, string>, written: set<string>, name: string)
    requires name in scripts && forall n :: n in written ==> n in scripts
    requires HoldsWritten(e1, base, scripts, written)
    requires e2 == e1[base + [name] := File(scripts[name])]
    ensures HoldsWritten(e2, base, scripts, written + {name})
    ensures forall e0 :: SameOutside(e0, e1, base) ==> SameOutside(e0, e2, base)
  {
    assert ChildOf(base + [name], base);
    forall q | ChildOf(q, base)
      ensures q == base + [name] <==> q[|base|] == name
    {
      assert q == base + [q[|base|]];
    }
  }

  /** Installing hooks in one repository leaves the hooks of every other repository as they were. */
  lemma InstalledElsewhere(e1: map<Path, Entry>, e2: map<Path, Entry>, b1: Path, b2: Path, h: HookScripts)
    requires SameOutside(e1, e2, b2) && Installed(e1, b1, h)
    requires |b1| == |b2| && b1 != b2
    ensures Installed(e2, b1, h)
  {
    forall q | ChildOf(q, b1)
      ensures !ChildOf(q, b2)
    {

    }
  }

  /** `p` lies directly in the hooks directory of a repository directly inside `dir`. */
  predicate InHooksOf(p: Path, dir: Path)
  {
    |p| == |dir| + 3 && p[..|dir|] == dir && p[|dir| + 1] == "hooks"
  }

  /** `e1` and `e2` agree on every path outside the hooks directories of the repositories in `dir`. */
  ghost predicate SameBeyondHooks(e1: map<Path, Entry>, e2: map<Path, Entry>, dir: Path)
  {
    forall p :: !InHooksOf(p, dir) ==> (p in e2 <==> p in e1) && (p in e2 ==> e2[p] == e1[p])
  }

  /** Changing only the hooks directory of one repository in `dir` keeps the rest of the tree. */
  lemma HooksOfOneRepo(e0: map<Path, Entry>, before: map<Path, Entry>, after: map<Path, Entry>, dir: Path, name: string)
    requires SameBeyondHooks(e0, before, dir) && SameOutside(before, after, HooksDir(dir + [name]))
    ensures SameBeyondHooks(e0, after, dir)
  {
    forall p | ChildOf(p, HooksDir(dir + [name]))
      ensures InHooksOf(p, dir)
    {
      assert p[..|dir|] == dir;
      assert p[|dir| + 1] == HooksDir(dir + [name])[|dir| + 1];
    }
  }

  /** The hooks are installed in every directory among the first `n` listed. */
  ghost predicate AllInstalled(entries: map<Path, Entry>, dir: Path, files: seq<DirEntry>, n: nat, hooks: HookScripts)
  {
    forall j :: 0 <= j < n && j < |files| && files[j].isDir ==> Installed(entries, HooksDir(dir + [files[j].name]), hooks)
  }

  /** Installing into the `i`-th listed directory keeps the hooks of the ones before it. */
  lemma OthersStayInstalled(before: map<Path, Entry>, after: map<Path, Entry>, dir: Path, files: seq<DirEntry>, i: nat, hooks: HookScripts)
    requires i < |files| && AllInstalled(before, dir, files, i, hooks)
    requires SameOutside(before, after, HooksDir(dir + [files[i].name]))
    requires forall j :: 0 <= j < i ==> files[j].name != files[i].name
    ensures AllInstalled(after, dir, files, i, hooks)
  {
    forall j | 0 <= j < i && files[j].isDir
      ensures Installed(after, HooksDir(dir + [files[j].name]), hooks)
    {
      assert HooksDir(dir + [files[j].name])[|dir|] == files[j].name;
      InstalledElsewhere(before, after, HooksDir(dir + [files[j].name]), HooksDir(dir + [files[i].name]), hooks);
    }
  }

  /**
   * Whether the hooks can be installed into the repository `dir + [name]` depends
   * only on its hooks directory, what is directly inside that, and one level below.
   */
  lemma InstallableFrame(e0: map<Path, Entry>, e: map<Path, Entry>, locked: set<Path>, dir: Path, name: string, hooks: HookScripts)
    requires SameBeyondHooks(e0, e, dir) && SameInside(e0, e, HooksDir(dir + [name]))
    ensures Installable(e0, locked, dir + [name], hooks) <==> Installable(e, locked, dir + [name], hooks)
  {
    var base := HooksDir(dir + [name]);
    assert !InHooksOf(base, dir);
    forall q | ChildOf(q, base)
      ensures Removable(e0, locked, q) <==> Removable(e, locked, q)
    {
      forall r | ChildOf(r, q)
        ensures (r in e0 <==> r in e) && (r in e0 ==> e0[r] == e[r])
      {
        assert !InHooksOf(r, dir);
      }
      SameRemovable(e0, e, locked, q);
    }
  }

  /**
   * Installing into the `i`-th listed repository leaves the hooks directories of the
   * repositories listed after it as they were in `e0`.
   */
  lemma LaterHooksKept(e0: map<Path, Entry>, before: map<Path, Entry>, after: map<Path, Entry>, dir: Path, files: seq<DirEntry>, i: nat)
    requires DistinctNames(files) && i < |files|
    requires forall j :: i <= j < |files| ==> SameInside(e0, before, HooksDir(dir + [files[j].name]))
    requires SameOutside(before, after, HooksDir(dir + [files[i].name]))
    ensures forall j :: i < j < |files| ==> SameInside(e0, after, HooksDir(dir + [files[j].name]))
  {
    forall j | i < j < |files|
      ensures SameInside(e0, after, HooksDir(dir + [files[j].name]))
    {
      var b := HooksDir(dir + [files[j].name]);
      forall q | ChildOf(q, b)
        ensures (q in before <==> q in after) && (q in before ==> before[q] == after[q])
      {
        assert q[|dir|] == q[..|b|][|dir|] == files[j].name;
        assert HooksDir(dir + [files[i].name])[|dir|] == files[i].name;
      }
    }
  }

  /**
   * One step of `setupHooks`: installs the hooks into the `i`-th listed
   * directory of `dir`, keeping what the steps before it did; it succeeds
   * exactly when that directory's hooks were installable in `e0`.
   */
  method InstallInto(fs: FileSystem, hooks: HookScripts, dir: Path, files: seq<DirEntry>, i: nat, ghost e0: map<Path, Entry>, ghost c0: seq<Change>)
    returns (err: Option<FsError>)
    requires fs.Valid() && i < |files| && files[i].isDir && DistinctNames(files)
    requires Installing(e0, fs.entries, fs.locked, dir, files, i, hooks)
    requires Extends(fs.changes, c0) && NoneMade(fs.changes, |c0|)
    modifies fs
    ensures fs.Valid()
    ensures SameBeyondHooks(e0, fs.entries, dir)
    ensures err.None? <==> Installable(e0, fs.locked, dir + [files[i].name], hooks)
    ensures err.None? ==> Installing(e0, fs.entries, fs.locked, dir, files, i + 1, hooks)
    ensures err.Some? ==> FailedAt(e0, fs.entries, fs.locked, dir, files, i, hooks)
    ensures Extends(fs.changes, c0) && NoneMade(fs.changes, |c0|)
  {
    ghost var before, cb := fs.entries, fs.changes;
    ghost var mid;
    InstallableFrame(e0, before, fs.locked, dir, files[i].name, hooks);
    err, mid := CreateHooksDir(fs, hooks, dir + [files[i].name]);
    HooksOfOneRepo(e0, before, fs.entries, dir, files[i].name);
    OthersStayInstalled(before, fs.entries, dir, files, i, hooks);
    LaterHooksKept(e0, before, fs.entries, dir, files, i);
    NoneMadeAfter(c0, cb, fs.changes, mid, HooksDir(dir + [files[i].name]));
    if err.None? {
      assert AllInstalled(fs.entries, dir, files, i + 1, hooks);
    }
  }

  /**
   * `Config.setupHooks`: installs the hooks into every directory directly
   * inside `dir`, skipping files, and stops at the first failure; listing
   * `dir` itself failing is an error.
   */
  method SetupHooks(fs: FileSystem, hooks: HookScripts, dir: Path) returns (err: Option<FsError>)
    requires fs.Valid()
    modifies fs
    ensures fs.Valid()
    ensures !old(fs.IsDir(dir)) ==>
      && err == Some(PathError(if old(fs.Exists(dir)) then "readdirent" else "open", dir))
      && fs.entries == old(fs.entries)
    ensures SameBeyondHooks(old(fs.entries), fs.entries, dir)
    ensures err.None? ==> forall q :: q in old(fs.entries) && ChildOf(q, dir) && old(fs.entries)[q].Dir? ==> Installed(fs.entries, HooksDir(q), hooks)
    ensures Extends(fs.changes, old(fs.changes)) && NoneMade(fs.changes, |old(fs.changes)|)
    ensures old(fs.IsDir(dir)) && !old(fs.HasChildren(dir)) ==>
      err.None? && fs.entries == old(fs.entries) && fs.changes == old(fs.changes)
    ensures old(fs.IsDir(dir)) ==> (err.None? <==> AllInstallable(old(fs.entries), fs.locked, dir, hooks))
    ensures old(fs.IsDir(dir)) && err.Some? ==>
      exists files, i :: Lists(files, old(fs.entries), dir) && FailedAt(old(fs.entries), fs.entries, fs.locked, dir, files, i, hooks)
  {
    ghost var e0 := fs.entries;
    var files, listErr := fs.ReadDir(dir);
    if listErr.Some? {
      return listErr;
    }
    if files != [] {
      assert ChildOf(dir + [files[0].name], dir);
    }
    ListedInstallable(e0, fs.locked, dir, files, hooks);
    err := InstallAll(fs, hooks, dir, files);
    if err.None? {
      ListedInstalled(e0, fs.entries, dir, files, hooks);
    }
  }

  /** The hooks can be installed into every repository directly inside `dir`. */
  ghost predicate AllInstallable(entries: map<Path, Entry>, locked: set<Path>, dir: Path, hooks: HookScripts)
  {
    forall q :: q in entries && ChildOf(q, dir) && entries[q].Dir? ==> Installable(entries, locked, q, hooks)
  }

  /** Every listed directory is installable exactly when every directory in `dir` is. */
  lemma ListedInstallable(e0: map<Path, Entry>, locked: set<Path>, dir: Path, files: seq<DirEntry>, hooks: HookScripts)
    requires Lists(files, e0, dir)
    ensures (forall j :: 0 <= j < |files| && files[j].isDir ==> Installable(e0, locked, dir + [files[j].name], hooks))
            <==> AllInstallable(e0, locked, dir, hooks)
  {
    if forall j :: 0 <= j < |files| && files[j].isDir ==> Installable(e0, locked, dir + [files[j].name], hooks) {
      forall q | q in e0 && ChildOf(q, dir) && e0[q].Dir?
        ensures Installable(e0, locked, q, hooks)
      {
        var j :| 0 <= j < |files| && q == dir + [files[j].name];
      }
    }
    if AllInstallable(e0, locked, dir, hooks) {
      forall j | 0 <= j < |files| && files[j].isDir
        ensures Installable(e0, locked, dir + [files[j].name], hooks)
      {
        assert ChildOf(dir + [files[j].name], dir);
      }
    }
  }

  /** The loop of `setupHooks` over the listing `files` of `dir`: each directory in turn. */
  method InstallAll(fs: FileSystem, hooks: HookScripts, dir: Path, files: seq<DirEntry>) returns (err: Option<FsError>)
    requires fs.Valid()
    requires DistinctNames(files)
    modifies fs
    ensures fs.Valid()
    ensures SameBeyondHooks(old(fs.entries), fs.entries, dir)
    ensures err.None? ==> AllInstalled(fs.entries, dir, files, |files|, hooks)
    ensures err.None? <==> forall j :: 0 <= j < |files| && files[j].isDir ==> Installable(old(fs.entries), fs.locked, dir + [files[j].name], hooks)
    ensures err.Some? ==> exists i :: FailedAt(old(fs.entries), fs.entries, fs.locked, dir, files, i, hooks)
    ensures Extends(fs.changes, old(fs.changes)) && NoneMade(fs.changes, |old(fs.changes)|)
    ensures files == [] ==> err.None? && fs.entries == old(fs.entries) && fs.changes == old(fs.changes)
  {
    ghost var e0, c0 := fs.entries, fs.changes;
    var i := 0;
    while i < |files|
      invariant 0 <= i <= |files|
      invariant i == 0 ==> fs.entries == e0 && fs.changes == c0
      invariant fs.Valid()
      invariant Installing(e0, fs.entries, fs.locked, dir, files, i, hooks)
      invariant Extends(fs.changes, c0) && NoneMade(fs.changes, |c0|)
    {
      if files[i].isDir {
        var e := InstallInto(fs, hooks, dir, files, i, e0, c0);
        if e.Some? {
          return e;
        }
      }
      i := i + 1;
    }
    err := None;
  }

  /**
   * The state of `setupHooks` after the first `i` listed entries of `dir`: the rest of
   * the tree is as in `e0`, every directory among them was installable in `e0` and
   * holds the hooks now, and the hooks directories of the later ones are untouched.
   */
  ghost predicate Installing(e0: map<Path, Entry>, e: map<Path, Entry>, locked: set<Path>, dir: Path, files: seq<DirEntry>, i: nat, hooks: HookScripts)
  {
    && i <= |files|
    && SameBeyondHooks(e0, e, dir)
    && AllInstalled(e, dir, files, i, hooks)
    && (forall j :: 0 <= j < i && files[j].isDir ==> Installable(e0, locked, dir + [files[j].name], hooks))
    && (forall j :: i <= j < |files| ==> SameInside(e0, e, HooksDir(dir + [files[j].name])))
  }

  /**
   * `setupHooks` stopped at the `i`-th listed entry: a directory whose hooks were not
   * installable in `e0`, after every directory listed before it had been installed
   * into and before anything listed after it was touched.
   */
  ghost predicate FailedAt(e0: map<Path, Entry>, e: map<Path, Entry>, locked: set<Path>, dir: Path, files: seq<DirEntry>, i: int, hooks: HookScripts)
  {
    && 0 <= i < |files|
    && files[i].isDir
    && !Installable(e0, locked, dir + [files[i].name], hooks)
    && (forall j :: 0 <= j < i && files[j].isDir ==> Installable(e0, locked, dir + [files[j].name], hooks))
    && AllInstalled(e, dir, files, i, hooks)
    && (forall j :: i < j < |files| ==> SameInside(e0, e, HooksDir(dir + [files[j].name])))
  }

  /** With the hooks installed in every listed directory, they are in every directory of the listing. */
  lemma ListedInstalled(e0: map<Path, Entry>, entries: map<Path, Entry>, dir: Path, files: seq<DirEntry>, hooks: HookScripts)
    requires Lists(files, e0, dir) && AllInstalled(entries, dir, files, |files|, hooks)
    ensures forall q :: q in e0 && ChildOf(q, dir) && e0[q].Dir? ==> Installed(entries, HooksDir(q), hooks)
  {
    forall q | q in e0 && ChildOf(q, dir) && e0[q].Dir?
      ensures Installed(entries, HooksDir(q), hooks)
    {
      var j :| 0 <= j < |files| && q == dir + [files[j].name];
    }
  }

  /**
   * `Config.Setup`: creates the repositories directory when it does not
   * exist, then, with `AutoHooks` set, installs the hooks in every
   * repository in it. The directory exists after a success; a failed
   * `os.Mkdir` is the result, with nothing changed, and a directory just
   * made is empty, so installing into it cannot fail. An empty directory
   * name is never there: both
   * `os.Stat("")` and `os.Mkdir("")` fail, and the latter's error is the
   * result. A file at the path is left alone and, with `AutoHooks`, makes
   * the hooks step fail on reading it. Whether or not the hooks step fails
   * part way, nothing but the new repositories directory and the hooks
   * directories of the repositories in it has changed.
   */
  method Setup(fs: FileSystem, c: Config) returns (err: Option<FsError>)
    requires fs.Valid()
    modifies fs
    ensures fs.Valid()
    ensures c.dir == "" ==> err == Some(PathError("mkdir", [])) && fs.entries == old(fs.entries) && fs.changes == old(fs.changes)
    ensures err.None? ==> fs.Exists(PathOf(c.dir))
    ensures var dir := PathOf(c.dir);
      c.dir != "" && !old(fs.Exists(dir)) ==>
        && (err.None? <==> dir !in fs.locked && old(fs.IsDir(dir[..|dir| - 1])))
        && (err.None? ==> fs.IsDir(dir) && fs.entries == old(fs.entries)[dir := Dir] && fs.changes == old(fs.changes) + [Made(dir)])
        && (err.Some? ==> err == Some(PathError("mkdir", dir)) && fs.entries == old(fs.entries) && fs.changes == old(fs.changes))
    ensures c.dir != "" && !c.autoHooks && old(fs.Exists(PathOf(c.dir))) ==>
      err.None? && fs.entries == old(fs.entries) && fs.changes == old(fs.changes)
    ensures c.dir != "" && c.autoHooks && old(fs.Exists(PathOf(c.dir))) && !old(fs.IsDir(PathOf(c.dir))) ==>
      err == Some(PathError("readdirent", PathOf(c.dir))) && fs.entries == old(fs.entries)
    ensures c.dir != "" && c.autoHooks && old(fs.IsDir(PathOf(c.dir))) ==>
      (err.None? <==> AllInstallable(old(fs.entries), fs.locked, PathOf(c.dir), c.hooks))
    ensures var dir := PathOf(c.dir);
      && Extends(fs.changes, old(fs.changes))
      && (forall i :: |old(fs.changes)| <= i < |fs.changes| && fs.changes[i].Made? ==> i == |old(fs.changes)| && fs.changes[i] == Made(dir) && !old(fs.Exists(dir)))
      && (!c.autoHooks ==> fs.entries == old(fs.entries) || fs.entries == old(fs.entries)[dir := Dir])
      && (c.autoHooks ==>
            || SameBeyondHooks(old(fs.entries), fs.entries, dir)
            || (!old(fs.Exists(dir)) && SameBeyondHooks(old(fs.entries)[dir := Dir], fs.entries, dir)))
      && (err.None? && c.autoHooks ==> forall q :: q in old(fs.entries) && ChildOf(q, dir) && old(fs.entries)[q].Dir? ==> Installed(fs.entries, HooksDir(q), c.hooks))
  {
    var dir := PathOf(c.dir);
    if c.dir == "" {
      return Some(PathError("mkdir", dir));
    }
    ghost var c0 := fs.changes;
    if !fs.Exists(dir) {
      err := fs.Mkdir(dir);
      if err.Some? {
        return;
      }
      NoChildrenOutsideDirs(old(fs.entries), dir);
      assert !fs.HasChildren(dir);
    }
    ghost var c1 := fs.changes;
    if c.autoHooks {
      err := SetupHooks(fs, c.hooks, dir);
      ExtendsTrans(c0, c1, fs.changes);
      return;
    }
    err := None;
  }

}
