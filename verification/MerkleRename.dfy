/** What a root hash tells of a tree: its digests and its folders in name order, and none
    of the names. */
module MerkleRename {

  import opened Wrappers
  import opened Names
  import opened Merkle

  // ---------- A tree without its names ----------

  datatype Tree = Tree(digests: seq<string>, folders: seq<Tree>)

  ghost function Folders(files: Files, f: Path, names: seq<string>): (r: seq<Tree>)
    requires forall i :: 0 <= i < |names| ==> names[i] in FolderNames(files, f)
    ensures |r| == |names|
    decreases Height(files, f), 0, |names|
  {
    if names == [] then []
    else
      var n := |names| - 1;
      ChildIsDeeper(files, f, names[n]);
      Folders(files, f, names[..n]) + [Nameless(files, f + [names[n]])]
  }

  ghost function Nameless(files: Files, f: Path): Tree
    decreases Height(files, f), 1
  {
    Tree(Digests(files, f), Folders(files, f, Ascending(FolderNames(files, f))))
  }

  lemma {:induction false} FolderAt(files: Files, f: Path, names: seq<string>, i: nat)
    requires forall j :: 0 <= j < |names| ==> names[j] in FolderNames(files, f)
    requires i < |names|
    ensures Folders(files, f, names)[i] == Nameless(files, f + [names[i]])
  {
    if i < |names| - 1 {
      FolderAt(files, f, names[..|names| - 1], i);
    }
  }

  ghost function HashOf(hash: Hash, t: Tree): string { hash(Joined(t.digests + Below(hash, t))) }

  ghost function Below(hash: Hash, t: Tree): (r: seq<string>)
    ensures |r| == |t.folders| && forall i :: 0 <= i < |r| ==> r[i] == HashOf(hash, t.folders[i])
    decreases t, 0
  {
    seq(|t.folders|, i requires 0 <= i < |t.folders| => HashOf(hash, t.folders[i]))
  }

  lemma ChildHashIs(hash: Hash, files: Files, f: Path, names: seq<string>, k: nat)
    requires forall j :: 0 <= j < |names| ==> names[j] in FolderNames(files, f)
    requires k < |names|
    requires FolderHash(hash, files, f + [names[k]]) == HashOf(hash, Nameless(files, f + [names[k]]))
    ensures FolderBlocks(hash, files, f, names)[k] == HashOf(hash, Folders(files, f, names)[k])
  {
    FolderBlockAt(hash, files, f, names, k);
    FolderAt(files, f, names, k);
  }

  /** A folder's hash is a function of the tree without names. */
  lemma {:induction false} FolderHashIs(hash: Hash, files: Files, f: Path)
    ensures FolderHash(hash, files, f) == HashOf(hash, Nameless(files, f))
    decreases Height(files, f)
  {
    var names := Ascending(FolderNames(files, f));
    var blocks, folders := FolderBlocks(hash, files, f, names), Folders(files, f, names);
    forall k | 0 <= k < |names| ensures blocks[k] == HashOf(hash, folders[k]) {
      ChildIsDeeper(files, f, names[k]);
      FolderHashIs(hash, files, f + [names[k]]);
      ChildHashIs(hash, files, f, names, k);
    }
    BlocksAreBelow(hash, Tree(Digests(files, f), folders), blocks);
  }

  lemma BlocksAreBelow(hash: Hash, t: Tree, blocks: seq<string>)
    requires |blocks| == |t.folders| && forall k :: 0 <= k < |blocks| ==> blocks[k] == HashOf(hash, t.folders[k])
    ensures blocks == Below(hash, t)
  {
  }

  /** A folder's hash object is fed the digests of its files in the order of their
      names, and only then the hashes of its folders in the order of theirs. */
  lemma {:induction false} FolderHashFeeds(hash: Hash, files: Files, f: Path, names: seq<string>, digests: seq<string>,
                                           folders: seq<string>, hashes: seq<string>)
    requires InOrder(names) && forall x :: x in names <==> f + [x] in files
    requires InOrder(folders) && forall x :: x in folders <==> exists p :: p in files && Under(f + [x], p)
    requires |digests| == |names| && forall i :: 0 <= i < |names| ==> f + [names[i]] in files && digests[i] == files[f + [names[i]]]
    requires |hashes| == |folders| && forall i :: 0 <= i < |folders| ==> hashes[i] == FolderHash(hash, files, f + [folders[i]])
    ensures FolderHash(hash, files, f) == hash(Joined(digests + hashes))
  {
    forall x ensures (x in FileNames(files, f) <==> x in names) && (x in FolderNames(files, f) <==> x in folders) {
      FileNameIs(files, f, x);
      FolderNameIs(files, f, x);
    }
    OnlyOneOrder(names, FileNames(files, f));
    OnlyOneOrder(folders, FolderNames(files, f));
    assert Digests(files, f) == digests;
    FolderBlocksAre(hash, files, f, folders, hashes);
  }

  lemma {:induction false} FolderBlocksAre(hash: Hash, files: Files, f: Path, folders: seq<string>, hashes: seq<string>)
    requires forall i :: 0 <= i < |folders| ==> folders[i] in FolderNames(files, f)
    requires |hashes| == |folders| && forall i :: 0 <= i < |folders| ==> hashes[i] == FolderHash(hash, files, f + [folders[i]])
    ensures FolderBlocks(hash, files, f, folders) == hashes
  {
    var blocks := FolderBlocks(hash, files, f, folders);
    forall i | 0 <= i < |folders| ensures blocks[i] == hashes[i] {
      FolderBlockAt(hash, files, f, folders, i);
    }
  }

  // ---------- What the hash tells ----------

  ghost predicate Sized(t: Tree) {
    && (forall i :: 0 <= i < |t.digests| ==> |t.digests[i]| == DIGEST)
    && forall k :: 0 <= k < |t.folders| ==> Sized(t.folders[k])
  }

  /** As many files and as many folders, folder by folder. */
  ghost predicate SameSkeleton(t: Tree, u: Tree) {
    && |t.digests| == |u.digests| && |t.folders| == |u.folders|
    && forall k :: 0 <= k < |t.folders| ==> SameSkeleton(t.folders[k], u.folders[k])
  }

  ghost predicate NoClashHere(hash: Hash, t: Tree, u: Tree) {
    HashOf(hash, t) == HashOf(hash, u) ==> Joined(t.digests + Below(hash, t)) == Joined(u.digests + Below(hash, u))
  }

  /** No two folders in the same place are a collision of the hash. */
  ghost predicate NoClash(hash: Hash, t: Tree, u: Tree) {
    && |t.folders| == |u.folders| && NoClashHere(hash, t, u)
    && forall k :: 0 <= k < |t.folders| ==> NoClash(hash, t.folders[k], u.folders[k])
  }

  /** One level: with as many files and as many folders, the hashes agree if and only if
      the digests do and the folders' hashes do, each in name order. */
  lemma OneLevelIff(hash: Hash, t: Tree, u: Tree)
    requires FixedLength(hash) && Sized(t) && Sized(u) && NoClashHere(hash, t, u)
    requires |t.digests| == |u.digests| && |t.folders| == |u.folders|
    ensures HashOf(hash, t) == HashOf(hash, u) <==> t.digests == u.digests && Below(hash, t) == Below(hash, u)
  {
    if HashOf(hash, t) == HashOf(hash, u) {
      var a, b := t.digests + Below(hash, t), u.digests + Below(hash, u);
      JoinedInjective(a, b);
      assert a[..|t.digests|] == t.digests && b[..|t.digests|] == u.digests;
      assert a[|t.digests|..] == Below(hash, t) && b[|t.digests|..] == Below(hash, u);
    }
  }

  /** All the way down: trees of one skeleton have the same hash if and only if they are
      the same but for names. */
  lemma {:induction false} SameHashIffSameTree(hash: Hash, t: Tree, u: Tree)
    requires FixedLength(hash) && Sized(t) && Sized(u) && NoClash(hash, t, u) && SameSkeleton(t, u)
    ensures HashOf(hash, t) == HashOf(hash, u) <==> t == u
  {
    OneLevelIff(hash, t, u);
    if HashOf(hash, t) == HashOf(hash, u) {
      forall k | 0 <= k < |t.folders| ensures t.folders[k] == u.folders[k] {
        assert Below(hash, t)[k] == Below(hash, u)[k];
        SameHashIffSameTree(hash, t.folders[k], u.folders[k]);
      }
    }
  }

  // ---------- Trees of any skeletons ----------

  ghost function BlocksOf(hash: Hash, t: Tree): (r: seq<string>)
    ensures |r| == |t.digests| + |t.folders|
    ensures forall i :: 0 <= i < |r| ==>
              r[i] == if i < |t.digests| then t.digests[i] else HashOf(hash, t.folders[i - |t.digests|])
  {
    t.digests + Below(hash, t)
  }

  /** The `i`th thing hashed for `t` and for `u`: two files of one digest, two folders
      that are alike, or a file whose digest is the other's folder hash. */
  ghost predicate AlikeAt(hash: Hash, t: Tree, u: Tree, i: nat)
    requires i < |t.digests| + |t.folders| && i < |u.digests| + |u.folders|
    decreases t, 0
  {
    if i >= |t.digests| && i >= |u.digests| then Alike(hash, t.folders[i - |t.digests|], u.folders[i - |u.digests|])
    else BlocksOf(hash, t)[i] == BlocksOf(hash, u)[i]
  }

  /** As many things in each place, one like the other. */
  ghost predicate Alike(hash: Hash, t: Tree, u: Tree)
    decreases t, 1
  {
    && |t.digests| + |t.folders| == |u.digests| + |u.folders|
    && forall i: nat :: i < |t.digests| + |t.folders| ==> AlikeAt(hash, t, u, i)
  }

  /** No two folders that stand in the same place are a collision of the hash. */
  ghost predicate NoClashAligned(hash: Hash, t: Tree, u: Tree)
    decreases t, 1
  {
    NoClashHere(hash, t, u) && forall i: nat :: NoClashAt(hash, t, u, i)
  }

  ghost predicate NoClashAt(hash: Hash, t: Tree, u: Tree, i: nat)
    decreases t, 0
  {
    |t.digests| <= i < |t.digests| + |t.folders| && |u.digests| <= i < |u.digests| + |u.folders| ==>
      NoClashAligned(hash, t.folders[i - |t.digests|], u.folders[i - |u.digests|])
  }

  lemma BlocksAreSized(hash: Hash, t: Tree)
    requires FixedLength(hash) && Sized(t)
    ensures forall i :: 0 <= i < |BlocksOf(hash, t)| ==> |BlocksOf(hash, t)[i]| == DIGEST
  {
  }

  /** One level of any two trees: their hashes agree if and only if the same is hashed. */
  lemma HashesAgreeIffBlocksDo(hash: Hash, t: Tree, u: Tree)
    requires FixedLength(hash) && Sized(t) && Sized(u) && NoClashHere(hash, t, u)
    ensures HashOf(hash, t) == HashOf(hash, u) <==> BlocksOf(hash, t) == BlocksOf(hash, u)
  {
    if HashOf(hash, t) == HashOf(hash, u) {
      BlocksAreSized(hash, t);
      BlocksAreSized(hash, u);
      JoinedLength(BlocksOf(hash, t));
      JoinedLength(BlocksOf(hash, u));
      JoinedInjective(BlocksOf(hash, t), BlocksOf(hash, u));
    }
  }

  lemma AlikeIffBlocksAgree(hash: Hash, t: Tree, u: Tree, a: seq<string>, b: seq<string>)
    requires |a| == |t.digests| + |t.folders| && |b| == |u.digests| + |u.folders|
    requires |a| == |b| ==> forall i: nat :: i < |a| ==> (a[i] == b[i] <==> AlikeAt(hash, t, u, i))
    ensures a == b <==> Alike(hash, t, u)
  {
    if Alike(hash, t, u) {
      assert forall i: nat :: i < |a| ==> AlikeAt(hash, t, u, i);
    }
  }

  /** All the way down, whatever the skeletons. */
  lemma {:induction false} SameHashIffAlike(hash: Hash, t: Tree, u: Tree)
    requires FixedLength(hash) && Sized(t) && Sized(u) && NoClashAligned(hash, t, u)
    ensures HashOf(hash, t) == HashOf(hash, u) <==> Alike(hash, t, u)
    decreases t, 1
  {
    var a, b := BlocksOf(hash, t), BlocksOf(hash, u);
    HashesAgreeIffBlocksDo(hash, t, u);
    if |a| == |b| {
      forall i: nat | i < |a| ensures a[i] == b[i] <==> AlikeAt(hash, t, u, i) {
        SameAtIffAlike(hash, t, u, i);
      }
    }
    AlikeIffBlocksAgree(hash, t, u, a, b);
  }

  lemma {:induction false} SameAtIffAlike(hash: Hash, t: Tree, u: Tree, i: nat)
    requires FixedLength(hash) && Sized(t) && Sized(u) && NoClashAligned(hash, t, u)
    requires i < |t.digests| + |t.folders| && i < |u.digests| + |u.folders|
    ensures BlocksOf(hash, t)[i] == BlocksOf(hash, u)[i] <==> AlikeAt(hash, t, u, i)
    decreases t, 0
  {
    if i >= |t.digests| && i >= |u.digests| {
      FolderBlock(hash, t, i);
      FolderBlock(hash, u, i);
      NoClashInFolder(hash, t, u, i);
      SameHashIffAlike(hash, t.folders[i - |t.digests|], u.folders[i - |u.digests|]);
    }
  }

  lemma FolderBlock(hash: Hash, t: Tree, i: nat)
    requires Sized(t) && |t.digests| <= i < |t.digests| + |t.folders|
    ensures Sized(t.folders[i - |t.digests|])
    ensures BlocksOf(hash, t)[i] == HashOf(hash, t.folders[i - |t.digests|])
  {
  }

  lemma NoClashInFolder(hash: Hash, t: Tree, u: Tree, i: nat)
    requires NoClashAligned(hash, t, u)
    requires |t.digests| <= i < |t.digests| + |t.folders| && |u.digests| <= i < |u.digests| + |u.folders|
    ensures NoClashAligned(hash, t.folders[i - |t.digests|], u.folders[i - |u.digests|])
  {
    assert NoClashAt(hash, t, u, i);
  }

  /** Roots of any two trees agree if and only if the trees are alike. */
  lemma RootsEqualIffAlike(hash: Hash, a: Files, b: Files)
    requires WellFormed(a) && WellFormed(b) && FixedLength(hash)
    requires NoClashAligned(hash, Nameless(a, ROOT), Nameless(b, ROOT))
    ensures RootHash(hash, a) == RootHash(hash, b) <==> Alike(hash, Nameless(a, ROOT), Nameless(b, ROOT))
  {
    FolderHashIs(hash, a, ROOT);
    FolderHashIs(hash, b, ROOT);
    NamelessIsSized(a, ROOT);
    NamelessIsSized(b, ROOT);
    SameHashIffAlike(hash, Nameless(a, ROOT), Nameless(b, ROOT));
  }

  lemma {:induction false} NamelessIsSized(files: Files, f: Path)
    requires WellFormed(files)
    ensures Sized(Nameless(files, f))
    decreases Height(files, f)
  {
    var here, below := Ascending(FileNames(files, f)), Ascending(FolderNames(files, f));
    FileNamesPresent(files, f, here);
    forall k | 0 <= k < |below| ensures Sized(Nameless(files, f).folders[k]) {
      ChildIsDeeper(files, f, below[k]);
      NamelessIsSized(files, f + [below[k]]);
      FolderAt(files, f, below, k);
    }
  }

  /** One level of any two folders: with as many files and as many folders their hashes
      agree if and only if their files' digests do and their folders' hashes do, each in
      name order. */
  lemma FolderHashesAgreeIff(hash: Hash, a: Files, f: Path, b: Files, g: Path)
    requires WellFormed(a) && WellFormed(b) && FixedLength(hash)
    requires |FileNames(a, f)| == |FileNames(b, g)| && |FolderNames(a, f)| == |FolderNames(b, g)|
    requires NoClashHere(hash, Nameless(a, f), Nameless(b, g))
    ensures FolderHash(hash, a, f) == FolderHash(hash, b, g)
       <==> Digests(a, f) == Digests(b, g) && ChildHashes(hash, a, f) == ChildHashes(hash, b, g)
  {
    FolderHashIs(hash, a, f);
    FolderHashIs(hash, b, g);
    NamelessIsSized(a, f);
    NamelessIsSized(b, g);
    ChildHashesAreBelow(hash, a, f);
    ChildHashesAreBelow(hash, b, g);
    OneLevelIff(hash, Nameless(a, f), Nameless(b, g));
  }

  /** The hashes of a folder's folders, in name order. */
  ghost function ChildHashes(hash: Hash, files: Files, f: Path): seq<string> {
    var names := Ascending(FolderNames(files, f));
    seq(|names|, k requires 0 <= k < |names| => FolderHash(hash, files, f + [names[k]]))
  }

  lemma ChildHashesAreBelow(hash: Hash, files: Files, f: Path)
    ensures ChildHashes(hash, files, f) == Below(hash, Nameless(files, f))
  {
    var names := Ascending(FolderNames(files, f));
    forall k | 0 <= k < |names|
      ensures FolderHash(hash, files, f + [names[k]]) == HashOf(hash, Folders(files, f, names)[k])
    {
      OneChildIsBelow(hash, files, f, names, k);
    }
    BlocksAreBelow(hash, Nameless(files, f), ChildHashes(hash, files, f));
  }

  lemma OneChildIsBelow(hash: Hash, files: Files, f: Path, names: seq<string>, k: nat)
    requires k < |names| && forall j :: 0 <= j < |names| ==> names[j] in FolderNames(files, f)
    ensures FolderHash(hash, files, f + [names[k]]) == HashOf(hash, Folders(files, f, names)[k])
  {
    FolderHashIs(hash, files, f + [names[k]]);
    FolderAt(files, f, names, k);
  }

  /** Whatever the names: with as many files and folders in each place, roots agree if
      and only if the trees are the same but for names. */
  lemma RootsEqualIffSameTree(hash: Hash, a: Files, b: Files)
    requires WellFormed(a) && WellFormed(b) && FixedLength(hash)
    requires SameSkeleton(Nameless(a, ROOT), Nameless(b, ROOT)) && NoClash(hash, Nameless(a, ROOT), Nameless(b, ROOT))
    ensures RootHash(hash, a) == RootHash(hash, b) <==> Nameless(a, ROOT) == Nameless(b, ROOT)
  {
    FolderHashIs(hash, a, ROOT);
    FolderHashIs(hash, b, ROOT);
    NamelessIsSized(a, ROOT);
    NamelessIsSized(b, ROOT);
    SameHashIffSameTree(hash, Nameless(a, ROOT), Nameless(b, ROOT));
  }

  // ---------- Renaming in order ----------

  /** Gives the file or folder at a path its new name. */
  type Renaming = Path -> string

  ghost function To(r: Renaming, p: Path): (q: Path)
    ensures |q| == |p| && forall i :: 0 <= i < |p| ==> q[i] == r(p[..i + 1])
  {
    seq(|p|, i requires 0 <= i < |p| => r(p[..i + 1]))
  }

  /** `names` of one folder keep their order under their new names. */
  ghost predicate KeepsOrder(r: Renaming, f: Path, names: set<string>) {
    forall x, y :: x in names && y in names && x != y && Precedes(x, y) ==>
      Precedes(r(f + [x]), r(f + [y])) && r(f + [x]) != r(f + [y])
  }

  ghost predicate InOrderAt(r: Renaming, files: Files, f: Path) {
    IsFolder(files, f) ==> KeepsOrder(r, f, FileNames(files, f)) && KeepsOrder(r, f, FolderNames(files, f))
  }

  ghost predicate InOrderBelow(r: Renaming, files: Files) { forall f :: InOrderAt(r, files, f) }

  ghost predicate Goes(r: Renaming, a: Files, b: Files, p: Path) {
    p in a ==> To(r, p) in b && b[To(r, p)] == a[p]
  }

  ghost predicate Comes(r: Renaming, a: Files, b: Files, q: Path) {
    q in b ==> exists p :: p in a && To(r, p) == q
  }

  /** `b` is `a` with every file and folder renamed. */
  ghost predicate Renamed(r: Renaming, a: Files, b: Files) {
    (forall p :: Goes(r, a, b, p)) && forall q :: Comes(r, a, b, q)
  }

  lemma ToPrefix(r: Renaming, p: Path, n: nat)
    requires n <= |p|
    ensures To(r, p)[..n] == To(r, p[..n])
  {
    forall i | 0 <= i < n ensures To(r, p)[i] == To(r, p[..n])[i] {
      assert p[..n][..i + 1] == p[..i + 1];
    }
  }

  lemma ToChild(r: Renaming, f: Path, name: string)
    ensures To(r, f + [name]) == To(r, f) + [r(f + [name])]
  {
    var p := f + [name];
    ToPrefix(r, p, |f|);
    assert p[..|f|] == f && p[..|f| + 1] == p;
  }

  lemma NewNameIsOwn(r: Renaming, f: Path, names: set<string>, x: string, y: string)
    requires KeepsOrder(r, f, names) && x in names && y in names && r(f + [x]) == r(f + [y])
    ensures x == y
  {
    Total(x, y);
  }

  lemma ParentIsFolder(files: Files, f: Path) returns (up: Path, name: string)
    requires IsFolder(files, f) && f != ROOT
    ensures f == up + [name] && IsFolder(files, up) && name in FolderNames(files, up)
  {
    up, name := f[..|f| - 1], f[|f| - 1];
    var p :| p in files && Under(f, p);
    assert p[..|up|] == f[..|up|] == up;
    assert Under(up, p);
    assert f == up + [name];
    FolderNameIs(files, up, name);
  }

  lemma SameEnds<T>(a: seq<T>, x: T, b: seq<T>, y: T)
    requires a + [x] == b + [y]
    ensures a == b && x == y
  {
    assert |a + [x]| == |b + [y]|;
    assert a == (a + [x])[..|a|] && b == (b + [y])[..|a|];
    assert x == (a + [x])[|a|] && y == (b + [y])[|a|];
  }

  lemma SiblingsStayApart(r: Renaming, a: Files, f: Path, x: string, y: string)
    requires InOrderAt(r, a, f) && IsFolder(a, f)
    requires x in FolderNames(a, f) && y in FolderNames(a, f) && r(f + [x]) == r(f + [y])
    ensures x == y
  {
    NewNameIsOwn(r, f, FolderNames(a, f), x, y);
  }

  /** Folders keep apart. */
  lemma {:induction false} FoldersStayApart(r: Renaming, a: Files, f: Path, g: Path)
    requires InOrderBelow(r, a) && IsFolder(a, f) && IsFolder(a, g) && To(r, f) == To(r, g)
    ensures f == g
    decreases |f|
  {
    assert |g| == |To(r, g)| == |f|;
    if f != ROOT {
      var up, x := ParentIsFolder(a, f);
      var vp, y := ParentIsFolder(a, g);
      ToChild(r, up, x);
      ToChild(r, vp, y);
      SameEnds(To(r, up), r(f), To(r, vp), r(g));
      FoldersStayApart(r, a, up, vp);
      assert InOrderAt(r, a, up);
      SiblingsStayApart(r, a, up, x, y);
    }
  }

  /** The names in a folder of `b` are the new names of those in the folder of `a`. */
  ghost predicate IsImage(r: Renaming, f: Path, was: set<string>, now: set<string>) {
    && (forall x :: x in was ==> r(f + [x]) in now)
    && forall y :: y in now ==> exists x :: x in was && r(f + [x]) == y
  }

  lemma NextPart(f: Path, p: Path)
    requires Under(f, p)
    ensures p[..|f| + 1] == f + [p[|f|]]
  {
  }

  /** The file of `a` that a file of `b` under To(f) comes from is under `f`. */
  lemma ComesFromUnder(r: Renaming, a: Files, f: Path, p: Path)
    requires InOrderBelow(r, a) && IsFolder(a, f) && p in a && Under(To(r, f), To(r, p))
    ensures Under(f, p) && To(r, p)[|f|] == r(f + [p[|f|]])
  {
    var g := p[..|f|];
    ToPrefix(r, p, |f|);
    assert IsFolder(a, g) by {
      assert Under(g, p);
    }
    FoldersStayApart(r, a, f, g);
    NextPart(f, p);
  }

  lemma GoesUnder(r: Renaming, f: Path, p: Path)
    requires Under(f, p)
    ensures Under(To(r, f), To(r, p)) && To(r, p)[|f|] == r(f + [p[|f|]])
  {
    ToPrefix(r, p, |f|);
    NextPart(f, p);
  }

  lemma FileNamesImage(r: Renaming, a: Files, b: Files, f: Path)
    requires Renamed(r, a, b) && InOrderBelow(r, a) && IsFolder(a, f)
    ensures IsImage(r, f, FileNames(a, f), FileNames(b, To(r, f)))
  {
    forall x | x in FileNames(a, f) ensures r(f + [x]) in FileNames(b, To(r, f)) {
      var p :| p in a && Under(f, p) && |p| == |f| + 1 && p[|f|] == x;
      assert Goes(r, a, b, p);
      GoesUnder(r, f, p);
    }
    forall y | y in FileNames(b, To(r, f)) ensures exists x :: x in FileNames(a, f) && r(f + [x]) == y {
      var q :| q in b && Under(To(r, f), q) && |q| == |f| + 1 && q[|f|] == y;
      assert Comes(r, a, b, q);
      var p :| p in a && To(r, p) == q;
      ComesFromUnder(r, a, f, p);
      assert p[|f|] in FileNames(a, f);
    }
  }

  lemma FolderNamesImage(r: Renaming, a: Files, b: Files, f: Path)
    requires Renamed(r, a, b) && InOrderBelow(r, a) && IsFolder(a, f)
    ensures IsImage(r, f, FolderNames(a, f), FolderNames(b, To(r, f)))
  {
    forall x | x in FolderNames(a, f) ensures r(f + [x]) in FolderNames(b, To(r, f)) {
      var p :| p in a && Under(f, p) && |p| > |f| + 1 && p[|f|] == x;
      assert Goes(r, a, b, p);
      GoesUnder(r, f, p);
    }
    forall y | y in FolderNames(b, To(r, f)) ensures exists x :: x in FolderNames(a, f) && r(f + [x]) == y {
      var q :| q in b && Under(To(r, f), q) && |q| > |f| + 1 && q[|f|] == y;
      assert Comes(r, a, b, q);
      var p :| p in a && To(r, p) == q;
      ComesFromUnder(r, a, f, p);
      assert p[|f|] in FolderNames(a, f);
    }
  }

  /** So they stand in the same order. */
  lemma ImageInOrder(r: Renaming, f: Path, was: set<string>, now: set<string>)
    requires KeepsOrder(r, f, was) && IsImage(r, f, was, now)
    ensures |Ascending(was)| == |Ascending(now)|
    ensures forall i :: 0 <= i < |Ascending(was)| ==> Ascending(now)[i] == r(f + [Ascending(was)[i]])
  {
    var names := Ascending(was);
    var news := seq(|names|, i requires 0 <= i < |names| => r(f + [names[i]]));
    AscendingInOrder(was);
    NewNamesInOrder(r, f, was, names, news);
    forall y ensures y in news <==> y in now {
      NewNamesAreAll(r, f, was, now, names, news, y);
    }
    OnlyOneOrder(news, now);
  }

  lemma NewNamesAreAll(r: Renaming, f: Path, was: set<string>, now: set<string>, names: seq<string>,
                       news: seq<string>, y: string)
    requires IsImage(r, f, was, now) && |news| == |names| && forall x :: x in names <==> x in was
    requires forall i :: 0 <= i < |names| ==> news[i] == r(f + [names[i]])
    ensures y in news <==> y in now
  {
    if y in now {
      var x :| x in was && r(f + [x]) == y;
      var i :| 0 <= i < |names| && names[i] == x;
      assert news[i] == y;
    }
    if y in news {
      var i :| 0 <= i < |news| && news[i] == y;
      assert names[i] in was;
    }
  }

  lemma NewNamesInOrder(r: Renaming, f: Path, was: set<string>, names: seq<string>, news: seq<string>)
    requires KeepsOrder(r, f, was) && InOrder(names) && |news| == |names|
    requires forall i :: 0 <= i < |names| ==> names[i] in was && news[i] == r(f + [names[i]])
    ensures InOrder(news)
  {
  }

  lemma SameDigests(a: Files, b: Files, f: Path, g: Path, was: seq<string>, now: seq<string>)
    requires |was| == |now| && forall i :: 0 <= i < |was| ==> f + [was[i]] in a && g + [now[i]] in b
    requires forall i :: 0 <= i < |was| ==> a[f + [was[i]]] == b[g + [now[i]]]
    ensures FileBlocks(a, f, was) == FileBlocks(b, g, now)
  {
  }

  lemma DigestStays(r: Renaming, a: Files, b: Files, f: Path, name: string)
    requires Renamed(r, a, b) && f + [name] in a
    ensures var q := To(r, f) + [r(f + [name])]; q in b && b[q] == a[f + [name]]
  {
    ToChild(r, f, name);
    assert Goes(r, a, b, f + [name]);
  }

  lemma FileOrderStays(r: Renaming, a: Files, b: Files, f: Path)
    requires Renamed(r, a, b) && InOrderBelow(r, a) && IsFolder(a, f)
    ensures var was, now := Ascending(FileNames(a, f)), Ascending(FileNames(b, To(r, f)));
            |was| == |now| && forall i :: 0 <= i < |was| ==> now[i] == r(f + [was[i]])
  {
    FileNamesImage(r, a, b, f);
    assert InOrderAt(r, a, f);
    ImageInOrder(r, f, FileNames(a, f), FileNames(b, To(r, f)));
  }

  lemma DigestsStay(r: Renaming, a: Files, b: Files, f: Path)
    requires Renamed(r, a, b) && InOrderBelow(r, a) && IsFolder(a, f)
    ensures Digests(a, f) == Digests(b, To(r, f))
  {
    var was, now := Ascending(FileNames(a, f)), Ascending(FileNames(b, To(r, f)));
    FileOrderStays(r, a, b, f);
    FileNamesPresent(a, f, was);
    forall i | 0 <= i < |was| ensures To(r, f) + [now[i]] in b && a[f + [was[i]]] == b[To(r, f) + [now[i]]] {
      DigestStays(r, a, b, f, was[i]);
    }
    SameDigests(a, b, f, To(r, f), was, now);
  }

  lemma SameFolders(a: Files, b: Files, f: Path, g: Path, was: seq<string>, now: seq<string>)
    requires |was| == |now|
    requires forall k :: 0 <= k < |was| ==> was[k] in FolderNames(a, f) && now[k] in FolderNames(b, g)
    requires forall k :: 0 <= k < |was| ==> Nameless(a, f + [was[k]]) == Nameless(b, g + [now[k]])
    ensures Folders(a, f, was) == Folders(b, g, now)
  {
    forall k | 0 <= k < |was| ensures Folders(a, f, was)[k] == Folders(b, g, now)[k] {
      FolderAt(a, f, was, k);
      FolderAt(b, g, now, k);
    }
  }

  lemma FolderOrderStays(r: Renaming, a: Files, b: Files, f: Path)
    requires Renamed(r, a, b) && InOrderBelow(r, a) && IsFolder(a, f)
    ensures var was, now := Ascending(FolderNames(a, f)), Ascending(FolderNames(b, To(r, f)));
            |was| == |now| && forall k :: 0 <= k < |was| ==> To(r, f) + [now[k]] == To(r, f + [was[k]])
  {
    FolderNamesImage(r, a, b, f);
    assert InOrderAt(r, a, f);
    ImageInOrder(r, f, FolderNames(a, f), FolderNames(b, To(r, f)));
    var was, now := Ascending(FolderNames(a, f)), Ascending(FolderNames(b, To(r, f)));
    forall k | 0 <= k < |was| ensures To(r, f) + [now[k]] == To(r, f + [was[k]]) {
      ToChild(r, f, was[k]);
    }
  }

  /** A tree renamed in order is the same but for names, from any folder down. */
  lemma {:induction false} RenamingKeepsTheTree(r: Renaming, a: Files, b: Files, f: Path)
    requires Renamed(r, a, b) && InOrderBelow(r, a) && IsFolder(a, f)
    ensures Nameless(a, f) == Nameless(b, To(r, f))
    decreases Height(a, f)
  {
    var was, now := Ascending(FolderNames(a, f)), Ascending(FolderNames(b, To(r, f)));
    DigestsStay(r, a, b, f);
    FolderOrderStays(r, a, b, f);
    forall k | 0 <= k < |was| ensures Nameless(a, f + [was[k]]) == Nameless(b, To(r, f) + [now[k]]) {
      ChildIsDeeper(a, f, was[k]);
      FolderNameIs(a, f, was[k]);
      RenamingKeepsTheTree(r, a, b, f + [was[k]]);
    }
    SameFolders(a, b, f, To(r, f), was, now);
  }

  /** Any renaming of files and folders that keeps their order in every folder keeps
      every folder's hash, and the root's: it is invisible to the index. */
  lemma RenamingKeepsTheHashes(hash: Hash, r: Renaming, a: Files, b: Files, f: Path)
    requires Renamed(r, a, b) && InOrderBelow(r, a) && IsFolder(a, f)
    ensures FolderHash(hash, a, f) == FolderHash(hash, b, To(r, f)) && RootHash(hash, a) == RootHash(hash, b)
  {
    RenamingKeepsTheTree(r, a, b, f);
    RenamingKeepsTheTree(r, a, b, ROOT);
    FolderHashIs(hash, a, f);
    FolderHashIs(hash, b, To(r, f));
    FolderHashIs(hash, a, ROOT);
    FolderHashIs(hash, b, ROOT);
  }

  // ---------- What the hash does not tell ----------

  lemma AscendingOne(name: string)
    ensures Ascending({name}) == [name]
  {
    OnlyOneOrder([name], {name});
  }

  lemma OneFile(files: Files, f: Path, name: string)
    requires files.Keys == {f + [name]}
    ensures Nameless(files, f) == Tree([files[f + [name]]], [])
  {
    assert f + [name] in files && forall p :: p in files ==> p == f + [name];
    FileNameIs(files, f, name);
    assert FileNames(files, f) == {name};
    assert FolderNames(files, f) == {};
    AscendingOne(name);
  }

  lemma OneFolder(files: Files, folder: string, name: string)
    requires files.Keys == {[folder, name]}
    ensures Nameless(files, ROOT) == Tree([], [Tree([files[[folder, name]]], [])])
  {
    assert [folder, name] in files && forall p :: p in files ==> p == [folder, name];
    assert FileNames(files, ROOT) == {};
    assert Under(ROOT, [folder, name]);
    assert FolderNames(files, ROOT) == {folder};
    AscendingOne(folder);
    assert ROOT + [folder] == [folder] && [folder] + [name] == [folder, name];
    OneFile(files, [folder], name);
    FolderAt(files, ROOT, [folder], 0);
  }

  /** A renamed file, for one, leaves the root. */
  lemma RenameKeepsTheRoot(hash: Hash, before: string, after: string, digest: string)
    ensures RootHash(hash, map[[before] := digest]) == RootHash(hash, map[[after] := digest])
  {
    FileAtTheRoot(hash, before, digest);
    FileAtTheRoot(hash, after, digest);
  }

  lemma FileAtTheRoot(hash: Hash, file: string, digest: string)
    ensures RootHash(hash, map[[file] := digest]) == hash(digest)
  {
    var files: Files := map[[file] := digest];
    assert ROOT + [file] == [file];
    OneFile(files, ROOT, file);
    FolderHashIs(hash, files, ROOT);
    FileAlone(hash, digest);
  }

  lemma FileAlone(hash: Hash, digest: string)
    ensures HashOf(hash, Tree([digest], [])) == hash(digest)
  {
    assert [digest] + Below(hash, Tree([digest], [])) == [digest];
    OneBlock(digest);
  }

  /** Trees of different skeletons may share a root with no collision at all: a folder of
      one file hashes as a file whose text is that file's digest. */
  lemma FolderLooksLikeAFile(hash: Hash, folder: string, name: string, file: string, digest: string)
    ensures RootHash(hash, map[[folder, name] := digest]) == RootHash(hash, map[[file] := hash(digest)])
  {
    var files: Files := map[[folder, name] := digest];
    OneFolder(files, folder, name);
    FolderHashIs(hash, files, ROOT);
    FolderAlone(hash, digest);
    FileAtTheRoot(hash, file, hash(digest));
  }

  lemma FolderAlone(hash: Hash, digest: string)
    ensures HashOf(hash, Tree([], [Tree([digest], [])])) == hash(hash(digest))
  {
    var t := Tree([], [Tree([digest], [])]);
    FileAlone(hash, digest);
    assert [] + Below(hash, t) == [hash(digest)];
    OneBlock(hash(digest));
  }

  lemma OneBlock(text: string)
    ensures Joined([text]) == text
  {
    assert [text][..0] == [];
    assert "" + text == text;
  }
}
