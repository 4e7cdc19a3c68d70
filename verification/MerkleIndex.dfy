/** The persisted index of `merkle.py`: the memoised bottom-up fold, `build` and
    `diff`, against the plain definition in `Merkle`. Sets and dictionaries are
    walked in any order: each loop takes whichever element it likes. */
module MerkleIndex {

  import opened Wrappers
  import opened Names
  import opened Merkle

  /** One file of a walk; no digest when it could not be read. */
  datatype Entry = Entry(path: Path, digest: Option<string>)

  ghost predicate WalkOk(walk: seq<Entry>) {
    && (forall i, j :: 0 <= i < j < |walk| ==> walk[i].path != walk[j].path)
    && (forall i :: 0 <= i < |walk| ==> |walk[i].path| > 0 && (walk[i].digest.Some? ==> |walk[i].digest.value| == DIGEST))
  }

  /** The digests of the files a walk could read. */
  function Readable(walk: seq<Entry>): Files {
    if walk == [] then map[]
    else
      var n := |walk| - 1;
      var before := Readable(walk[..n]);
      if walk[n].digest.Some? then before[walk[n].path := walk[n].digest.value] else before
  }

  function Seen(walk: seq<Entry>): set<Path> { set e | e in walk :: e.path }

  type Lists = map<Path, seq<string>>

  function ListOf(lists: Lists, f: Path): seq<string> { if f in lists then lists[f] else [] }

  predicate Distinct(names: seq<string>) { forall i, j :: 0 <= i < j < |names| ==> names[i] != names[j] }

  function NamesIn(names: seq<string>): set<string> { set x | x in names }

  /** `folder_files` and `children_of` list every name once, in whatever order. */
  ghost predicate ListsFiles(lists: Lists, files: Files) {
    forall f :: Distinct(ListOf(lists, f)) && NamesIn(ListOf(lists, f)) == FileNames(files, f)
  }

  ghost predicate ListsFolders(lists: Lists, files: Files) {
    forall f :: IsFolder(files, f) ==> Distinct(ListOf(lists, f)) && NamesIn(ListOf(lists, f)) == FolderNames(files, f)
  }

  lemma JoinedAppend(blocks: seq<string>, block: string)
    ensures Joined(blocks + [block]) == Joined(blocks) + block
  {
    assert (blocks + [block])[..|blocks|] == blocks;
  }

  // ---------- The memoised fold ----------

  class FolderHasher {
    const hash: Hash
    const files: Files
    const folderFiles: Lists
    const childrenOf: Lists
    var memo: map<Path, string>

    ghost predicate MemoOk()
      reads `memo
    {
      forall f :: f in memo ==> IsFolder(files, f) && memo[f] == FolderHash(hash, files, f)
    }

    constructor (hash: Hash, files: Files, folderFiles: Lists, childrenOf: Lists)
      ensures this.hash == hash && this.files == files && this.folderFiles == folderFiles && this.childrenOf == childrenOf
      ensures MemoOk() && memo == map[]
    {
      this.hash, this.files, this.folderFiles, this.childrenOf := hash, files, folderFiles, childrenOf;
      memo := map[];
    }

    method FileNamesOf(folder: Path) returns (names: seq<string>)
      requires ListsFiles(folderFiles, files)
      ensures names == Ascending(FileNames(files, folder))
    {
      names := Sort(ListOf(folderFiles, folder));
      assert NamesIn(ListOf(folderFiles, folder)) == FileNames(files, folder);
    }

    method FeedNames(folder: Path, names: seq<string>) returns (text: string)
      requires forall i :: 0 <= i < |names| ==> folder + [names[i]] in files
      ensures text == Joined(FileBlocks(files, folder, names))
    {
      text := "";
      for i := 0 to |names|
        invariant text == Joined(FileBlocks(files, folder, names[..i]))
      {
        assert names[..i + 1][..i] == names[..i];
        JoinedAppend(FileBlocks(files, folder, names[..i]), files[folder + [names[i]]]);
        text := text + files[folder + [names[i]]];
      }
      assert names[..|names|] == names;
    }

    /** The digests of the folder's files, hashed in name order. */
    method FeedFiles(folder: Path) returns (text: string)
      requires ListsFiles(folderFiles, files)
      ensures text == Joined(Digests(files, folder))
    {
      var names := FileNamesOf(folder);
      FileNamesPresent(files, folder, names);
      text := FeedNames(folder, names);
    }

    /** Whatever the order folders are asked for, the memo holds the plain definition. */
    method HashFolder(folder: Path) returns (h: string)
      requires ListsFiles(folderFiles, files) && ListsFolders(childrenOf, files)
      requires MemoOk() && IsFolder(files, folder)
      modifies `memo
      ensures MemoOk() && old(memo).Keys <= memo.Keys && folder in memo
      ensures h == FolderHash(hash, files, folder)
      decreases Height(files, folder), 1
    {
      if folder in memo {
        return memo[folder];
      }
      var text := FeedFiles(folder);
      var names := ChildNames(folder);
      text := FeedFolders(folder, names, text, Digests(files, folder));
      h := hash(text);
      Memoise(folder, h);
    }

    method Memoise(folder: Path, h: string)
      requires MemoOk() && IsFolder(files, folder) && h == FolderHash(hash, files, folder)
      modifies `memo
      ensures MemoOk() && memo == old(memo)[folder := h]
    {
      memo := memo[folder := h];
    }

    method ChildNames(folder: Path) returns (names: seq<string>)
      requires ListsFolders(childrenOf, files) && IsFolder(files, folder)
      ensures names == Ascending(FolderNames(files, folder))
    {
      names := Sort(ListOf(childrenOf, folder));
      assert NamesIn(ListOf(childrenOf, folder)) == FolderNames(files, folder);
    }

    /** The hashes of the folder's folders, hashed in turn. */
    method FeedFolders(folder: Path, names: seq<string>, fed: string, ghost blocks: seq<string>) returns (text: string)
      requires ListsFiles(folderFiles, files) && ListsFolders(childrenOf, files)
      requires MemoOk() && fed == Joined(blocks)
      requires forall j :: 0 <= j < |names| ==> names[j] in FolderNames(files, folder)
      modifies `memo
      ensures MemoOk() && old(memo).Keys <= memo.Keys
      ensures text == Joined(blocks + FolderBlocks(hash, files, folder, names))
      decreases Height(files, folder), 0
    {
      text := fed;
      assert blocks + FolderBlocks(hash, files, folder, names[..0]) == blocks;
      for i := 0 to |names|
        invariant MemoOk() && old(memo).Keys <= memo.Keys
        invariant text == Joined(blocks + FolderBlocks(hash, files, folder, names[..i]))
      {
        var name := names[i];
        ChildIsDeeper(files, folder, name);
        FolderNameIs(files, folder, name);
        var child := HashFolder(folder + [name]);
        MoreChildren(hash, files, folder, blocks, names, i);
        text := text + child;
      }
      assert names[..|names|] == names;
    }
  }

  lemma MoreChildren(hash: Hash, files: Files, folder: Path, digests: seq<string>, names: seq<string>, i: nat)
    requires i < |names| && forall j :: 0 <= j < |names| ==> names[j] in FolderNames(files, folder)
    ensures Joined(digests + FolderBlocks(hash, files, folder, names[..i + 1]))
         == Joined(digests + FolderBlocks(hash, files, folder, names[..i])) + FolderHash(hash, files, folder + [names[i]])
  {
    var before := FolderBlocks(hash, files, folder, names[..i]);
    var child := FolderHash(hash, files, folder + [names[i]]);
    assert names[..i + 1][..i] == names[..i];
    assert digests + (before + [child]) == (digests + before) + [child];
    JoinedAppend(digests + before, child);
  }

  /** A folder's ancestors, itself included. */
  method AddAncestors(all: set<Path>, folder: Path, ghost files: Files) returns (more: set<Path>)
    requires IsFolder(files, folder) && forall f :: f in all ==> IsFolder(files, f)
    ensures all <= more && forall f :: f in more ==> IsFolder(files, f)
    ensures forall i :: 0 < i <= |folder| ==> folder[..i] in more
  {
    more := all;
    for i := 0 to |folder|
      invariant all <= more && forall f :: f in more ==> IsFolder(files, f)
      invariant forall j :: 0 < j <= i ==> folder[..j] in more
    {
      PrefixIsFolder(files, folder, i + 1);
      more := more + {folder[..i + 1]};
    }
  }

  ghost predicate AncestorsIn(f: Path, all: set<Path>) { forall i :: 0 < i <= |f| ==> f[..i] in all }

  lemma AncestorsStay(f: Path, all: set<Path>, more: set<Path>)
    requires AncestorsIn(f, all) && all <= more
    ensures AncestorsIn(f, more)
  {
  }

  lemma AllFoldersFound(files: Files, keys: set<Path>, all: set<Path>)
    requires forall p :: p in files ==> |p| > 0 && p[..|p| - 1] in keys
    requires forall f :: f in keys ==> AncestorsIn(f, all)
    ensures forall f :: IsFolder(files, f) ==> f in all + {ROOT}
  {
    forall f | IsFolder(files, f) && f != ROOT ensures f in all {
      var p :| p in files && Under(f, p);
      var parent := p[..|p| - 1];
      assert AncestorsIn(parent, all) && parent[..|f|] == f;
    }
  }

  /** Every folder with files, and all its ancestors, and the root. */
  method AllFolderPaths(folderFiles: Lists, ghost files: Files) returns (all: set<Path>)
    requires forall f :: f in folderFiles ==> IsFolder(files, f)
    requires forall p :: p in files ==> |p| > 0 && p[..|p| - 1] in folderFiles
    ensures forall f :: f in all <==> IsFolder(files, f)
  {
    all := folderFiles.Keys;
    var todo := all;
    while |todo| > 0
      invariant todo <= folderFiles.Keys
      invariant forall f :: f in all ==> IsFolder(files, f)
      invariant forall f :: f in folderFiles.Keys - todo ==> AncestorsIn(f, all)
      decreases |todo|
    {
      var folder :| folder in todo;
      var more := AddAncestors(all, folder, files);
      forall f | f in folderFiles.Keys - todo ensures AncestorsIn(f, more) {
        AncestorsStay(f, all, more);
      }
      all := more;
      todo := todo - {folder};
    }
    AllFoldersFound(files, folderFiles.Keys, all);
    all := all + {ROOT};
  }

  lemma FolderWithFiles(files: Files, f: Path)
    requires FileNames(files, f) != {}
    ensures IsFolder(files, f)
  {
    var name := Pick(FileNames(files, f));
    FileNameIs(files, f, name);
    assert Under(f, f + [name]);
  }

  lemma PrefixIsFolder(files: Files, f: Path, i: nat)
    requires IsFolder(files, f) && i <= |f|
    ensures IsFolder(files, f[..i])
  {
    if f != ROOT {
      var p :| p in files && Under(f, p);
      assert p[..i] == f[..i];
      assert Under(f[..i], p);
    }
  }

  /** `f` entered once in its parent's list. */
  method AddChild(lists: Lists, f: Path) returns (more: Lists)
    requires f != ROOT && f[..|f| - 1] in lists
    requires forall g :: g in lists ==> Distinct(lists[g])
    ensures more.Keys == lists.Keys
    ensures forall g :: g in more ==> Distinct(more[g])
    ensures forall g, name :: g in more ==> (name in more[g] <==> name in lists[g] || g + [name] == f)
  {
    var parent, name := f[..|f| - 1], f[|f| - 1];
    assert parent + [name] == f;
    more := lists;
    if name !in lists[parent] {
      more := lists[parent := lists[parent] + [name]];
    }
  }

  lemma ChildrenListed(lists: Lists, all: set<Path>, files: Files)
    requires lists.Keys == all && forall f :: f in all <==> IsFolder(files, f)
    requires forall f :: f in all ==> Distinct(lists[f])
    requires forall f, name :: f in all ==> (name in lists[f] <==> f + [name] in all)
    ensures ListsFolders(lists, files)
  {
    forall f | IsFolder(files, f)
      ensures Distinct(ListOf(lists, f)) && NamesIn(ListOf(lists, f)) == FolderNames(files, f)
    {
      forall name ensures name in lists[f] <==> name in FolderNames(files, f) {
        FolderNameIs(files, f, name);
      }
    }
  }

  /** Each folder's immediate child folders. */
  method FolderChildren(all: set<Path>, ghost files: Files) returns (childrenOf: Lists)
    requires forall f :: f in all <==> IsFolder(files, f)
    ensures ListsFolders(childrenOf, files)
  {
    childrenOf := map f | f in all :: [];
    var todo := all;
    while |todo| > 0
      invariant todo <= all && childrenOf.Keys == all
      invariant forall f :: f in all ==> Distinct(childrenOf[f])
      invariant forall f, name :: f in all ==> (name in childrenOf[f] <==> f + [name] in all - todo)
      decreases |todo|
    {
      var f :| f in todo;
      todo := todo - {f};
      if f != ROOT {
        PrefixIsFolder(files, f, |f| - 1);
        childrenOf := AddChild(childrenOf, f);
      }
    }
    ChildrenListed(childrenOf, all, files);
  }

  // ---------- Build and diff ----------

  /** The files of a walk so far, by digest and by folder. */
  ghost predicate Grouped(folderFiles: Lists, files: Files) {
    && ListsFiles(folderFiles, files)
    && (forall f :: f in folderFiles ==> folderFiles[f] != [])
    && forall p :: p in files ==> |p| > 0 && p[..|p| - 1] in folderFiles
  }

  lemma GroupOne(folderFiles: Lists, files: Files, path: Path, digest: string)
    requires Grouped(folderFiles, files) && |path| > 0 && path !in files
    ensures var folder, name := path[..|path| - 1], path[|path| - 1];
            Grouped(folderFiles[folder := ListOf(folderFiles, folder) + [name]], files[path := digest])
  {
    var folder, name := path[..|path| - 1], path[|path| - 1];
    assert folder + [name] == path;
    var more, grown := folderFiles[folder := ListOf(folderFiles, folder) + [name]], files[path := digest];
    FileNameIs(files, folder, name);
    assert name !in NamesIn(ListOf(folderFiles, folder));
    forall f ensures Distinct(ListOf(more, f)) && NamesIn(ListOf(more, f)) == FileNames(grown, f) {
      assert Distinct(ListOf(folderFiles, f)) && NamesIn(ListOf(folderFiles, f)) == FileNames(files, f);
      GroupedNames(files, f, path, digest);
    }
  }

  lemma GroupedNames(files: Files, f: Path, path: Path, digest: string)
    requires |path| > 0
    ensures FileNames(files[path := digest], f)
         == FileNames(files, f) + if f == path[..|path| - 1] then {path[|path| - 1]} else {}
  {
    forall x
      ensures x in FileNames(files[path := digest], f)
         <==> x in FileNames(files, f) || (f == path[..|path| - 1] && x == path[|path| - 1])
    {
      FileNameIs(files, f, x);
      FileNameIs(files[path := digest], f, x);
      assert path == path[..|path| - 1] + [path[|path| - 1]];
    }
  }

  lemma {:induction false} ReadableIs(walk: seq<Entry>)
    requires WalkOk(walk)
    ensures WellFormed(Readable(walk)) && Readable(walk).Keys <= Seen(walk)
    ensures forall i :: 0 <= i < |walk| ==>
              if walk[i].digest.Some?
              then walk[i].path in Readable(walk) && Readable(walk)[walk[i].path] == walk[i].digest.value
              else walk[i].path !in Readable(walk)
  {
    if walk != [] {
      var front := walk[..|walk| - 1];
      ReadableIs(front);
      assert forall i :: 0 <= i < |front| ==> front[i] == walk[i];
      assert walk[|front|].path !in Seen(front);
    }
  }

  /** The paths on which a snapshot and the tree disagree: new or changed, or gone.
      A file that is there but cannot be read is neither. */
  function ChangedPaths(prior: Files, now: Files, seen: set<Path>): set<Path> {
    (set p | p in now && (p !in prior || prior[p] != now[p])) + (set p | p in prior && p !in seen)
  }

  /** What is reported of a file the walk came across: it was read, and the snapshot
      has no digest of it or another one. Of any other path: the snapshot has it. */
  lemma ReportedIff(prior: Files, walk: seq<Entry>)
    requires WalkOk(walk)
    ensures forall e :: e in walk ==>
              (e.path in ChangedPaths(prior, Readable(walk), Seen(walk)) <==>
                 && e.digest.Some? && (e.path in prior ==> prior[e.path] != e.digest.value))
    ensures forall p :: (forall e :: e in walk ==> e.path != p) ==>
              (p in ChangedPaths(prior, Readable(walk), Seen(walk)) <==> p in prior)
  {
    ReadableIs(walk);
    forall e | e in walk
      ensures e.path in ChangedPaths(prior, Readable(walk), Seen(walk)) <==>
              && e.digest.Some? && (e.path in prior ==> prior[e.path] != e.digest.value)
    {
      var i :| 0 <= i < |walk| && walk[i] == e;
      assert e.path in Seen(walk);
    }
  }

  class Index {
    const hash: Hash
    var fileRows: Files
    var folderRows: map<Path, string>

    /** The rows are the files of the last build and every folder's hash. */
    ghost predicate Valid()
      reads this
    {
      && WellFormed(fileRows)
      && (folderRows == map[] || forall f :: f in folderRows <==> IsFolder(fileRows, f))
      && forall f :: f in folderRows ==> folderRows[f] == FolderHash(hash, fileRows, f)
    }

    constructor (hash: Hash)
      ensures Valid() && fileRows == map[] && folderRows == map[]
    {
      this.hash := hash;
      fileRows, folderRows := map[], map[];
    }

    /** The persisted root hash, if there was a build. */
    method CurrentRoot() returns (root: Option<string>)
      requires Valid()
      ensures root == if folderRows == map[] then None else Some(RootHash(hash, fileRows))
    {
      root := if ROOT in folderRows then Some(folderRows[ROOT]) else None;
      assert folderRows != map[] ==> IsFolder(fileRows, ROOT);
    }

    method Collect(walk: seq<Entry>) returns (files: Files, folderFiles: Lists)
      requires WalkOk(walk)
      ensures files == Readable(walk) && Grouped(folderFiles, files)
    {
      files, folderFiles := map[], map[];
      EmptyGrouped();
      for i := 0 to |walk|
        invariant files == Readable(walk[..i]) && Grouped(folderFiles, files)
      {
        assert walk[..i + 1][..i] == walk[..i];
        ReadableIs(walk[..i]);
        if walk[i].digest.Some? {
          var path := walk[i].path;
          var folder, name := path[..|path| - 1], path[|path| - 1];
          assert path !in files by {
            assert forall j :: 0 <= j < i ==> walk[j].path != path;
          }
          GroupOne(folderFiles, files, path, walk[i].digest.value);
          folderFiles := folderFiles[folder := ListOf(folderFiles, folder) + [name]];
          files := files[path := walk[i].digest.value];
        }
      }
      assert walk[..|walk|] == walk;
    }

    /** Bottom-up hashes of all folders, asked for in any order. */
    method ComputeFolderHashes(folderFiles: Lists, files: Files) returns (out: map<Path, string>)
      requires Grouped(folderFiles, files)
      ensures forall f :: f in out <==> IsFolder(files, f)
      ensures forall f :: f in out ==> out[f] == FolderHash(hash, files, f)
    {
      GroupedFolders(folderFiles, files);
      var all := AllFolderPaths(folderFiles, files);
      var childrenOf := FolderChildren(all, files);
      var hasher := new FolderHasher(hash, files, folderFiles, childrenOf);
      var todo := all;
      while |todo| > 0
        invariant todo <= all && hasher.MemoOk() && all - todo <= hasher.memo.Keys
        decreases |todo|
      {
        var folder :| folder in todo;
        var h := hasher.HashFolder(folder);
        todo := todo - {folder};
      }
      out := hasher.memo;
    }

    /** Hash the tree and replace every row. */
    method Build(walk: seq<Entry>) returns (root: string)
      requires WalkOk(walk) && Valid()
      modifies this
      ensures Valid() && fileRows == Readable(walk) && folderRows != map[]
      ensures root == RootHash(hash, fileRows)
    {
      var files, folderFiles := Collect(walk);
      ReadableIs(walk);
      var folders := ComputeFolderHashes(folderFiles, files);
      assert IsFolder(files, ROOT);
      root := folders[ROOT];
      fileRows, folderRows := files, folders;
    }

    /** The paths changed since the build whose root hash the caller kept. A caller
        whose root is the persisted one is told nothing changed, whatever the walk
        would show. */
    method Diff(walk: seq<Entry>, prev: Option<string>) returns (changed: seq<Path>)
      requires WalkOk(walk) && Valid()
      ensures var truth := ChangedPaths(fileRows, Readable(walk), Seen(walk));
              var shortcut := prev.Some? && prev.value != "" && folderRows != map[]
                              && prev.value == RootHash(hash, fileRows);
              && (forall i, j :: 0 <= i < j < |changed| ==> changed[i] != changed[j])
              && (forall p :: p in changed <==> p in truth && !shortcut)
              && (forall e :: e in walk ==>
                    (e.path in changed <==> !shortcut && e.digest.Some?
                                            && (e.path in fileRows ==> fileRows[e.path] != e.digest.value)))
              && (forall p :: (forall e :: e in walk ==> e.path != p) ==>
                    (p in changed <==> !shortcut && p in fileRows))
    {
      ReportedIff(fileRows, walk);
      var current := CurrentRoot();
      if prev.Some? && prev.value != "" && prev == current {
        return [];
      }
      changed := NewOrChanged(walk);
      ghost var found := changed;
      var seen := Seen(walk);
      var gone := set p | p in fileRows && p !in seen;
      var todo := gone;
      while |todo| > 0
        invariant todo <= gone
        invariant forall i, j :: 0 <= i < j < |changed| ==> changed[i] != changed[j]
        invariant forall p :: p in changed <==> p in found || p in gone - todo
        decreases |todo|
      {
        var p :| p in todo;
        changed := changed + [p];
        todo := todo - {p};
      }
    }

    method NewOrChanged(walk: seq<Entry>) returns (changed: seq<Path>)
      requires WalkOk(walk)
      ensures forall i, j :: 0 <= i < j < |changed| ==> changed[i] != changed[j]
      ensures forall p :: p in changed <==> p in Readable(walk) && (p !in fileRows || fileRows[p] != Readable(walk)[p])
      ensures forall p :: p in changed ==> p in Seen(walk)
    {
      changed := [];
      for i := 0 to |walk|
        invariant forall a, b :: 0 <= a < b < |changed| ==> changed[a] != changed[b]
        invariant forall p :: p in changed <==>
                    p in Readable(walk[..i]) && (p !in fileRows || fileRows[p] != Readable(walk[..i])[p])
      {
        assert walk[..i + 1][..i] == walk[..i];
        ReadableIs(walk[..i]);
        assert forall j :: 0 <= j < i ==> walk[j].path != walk[i].path;
        assert walk[i].path !in Readable(walk[..i]);
        if walk[i].digest.Some? {
          if walk[i].path !in fileRows || fileRows[walk[i].path] != walk[i].digest.value {
            changed := changed + [walk[i].path];
          }
        }
      }
      assert walk[..|walk|] == walk;
      ReadableIs(walk);
    }

    method Forget()
      modifies this
      ensures Valid() && fileRows == map[] && folderRows == map[]
    {
      fileRows, folderRows := map[], map[];
    }
  }

  lemma EmptyGrouped()
    ensures Grouped(map[], map[])
  {
  }

  lemma GroupedFolders(folderFiles: Lists, files: Files)
    requires Grouped(folderFiles, files)
    ensures forall f :: f in folderFiles ==> IsFolder(files, f)
  {
    forall f | f in folderFiles ensures IsFolder(files, f) {
      assert folderFiles[f][0] in NamesIn(ListOf(folderFiles, f));
      FolderWithFiles(files, f);
    }
  }

  // ---------- What diff is good for ----------

  /** The snapshot, brought up to date on some paths only. */
  function Patched(prior: Files, now: Files, paths: set<Path>): Files {
    (map p | p in prior && p !in paths :: prior[p]) + (map p | p in now && p in paths :: now[p])
  }

  /** Reindexing the changed paths, and nothing less, makes the snapshot the tree. */
  lemma ChangedPathsAreThePatch(prior: Files, now: Files, paths: set<Path>)
    ensures Patched(prior, now, paths) == now <==> ChangedPaths(prior, now, now.Keys) <= paths
  {
    var patched := Patched(prior, now, paths);
    if ChangedPaths(prior, now, now.Keys) <= paths {
      forall p ensures p in patched <==> p in now {
      }
      assert patched == now;
    }
    if patched == now {
      forall p | p in ChangedPaths(prior, now, now.Keys) ensures p in paths {
        assert p in patched <==> p in now;
      }
    }
  }

  /** Nothing to reindex exactly when the root a build would now return is the old
      one, if no path came or went. */
  lemma NothingChangedIffSameRoot(hash: Hash, prior: Files, now: Files)
    requires prior.Keys == now.Keys && WellFormed(prior) && WellFormed(now)
    requires FixedLength(hash) && NoCollision(hash, prior, now)
    ensures ChangedPaths(prior, now, now.Keys) == {} <==> RootHash(hash, prior) == RootHash(hash, now)
  {
    RootsEqualIffFilesEqual(hash, prior, now);
    if ChangedPaths(prior, now, now.Keys) == {} {
      forall p | p in now ensures prior[p] == now[p] {
        assert p !in ChangedPaths(prior, now, now.Keys);
      }
      assert prior == now;
    }
  }

  /** Right after a build, an unchanged tree has no changed path, however it is
      walked and even where files are unreadable. */
  lemma UnchangedTreeHasNoDiff(walk: seq<Entry>, again: seq<Entry>)
    requires WalkOk(walk) && WalkOk(again) && Readable(walk) == Readable(again)
    ensures ChangedPaths(Readable(walk), Readable(again), Seen(again)) == {}
  {
    ReadableIs(again);
  }
}
