/** The hash tree of `merkle.py` as a plain recursive definition: a folder's hash is
    the hash of its files' digests, then its folders' hashes, each in name order. */
module Merkle {

  import opened Wrappers
  import opened Names

  /** A path's parts; the root folder has none. */
  type Path = seq<string>

  /** Every readable file's digest. */
  type Files = map<Path, string>

  const ROOT: Path := []

  /** A hex SHA-256 digest (section 6.2 of FIPS 180-4). */
  const DIGEST: nat := 64

  type Hash = string -> string

  ghost predicate FixedLength(hash: Hash) { forall text :: |hash(text)| == DIGEST }

  predicate WellFormed(files: Files) { forall p :: p in files ==> |p| > 0 && |files[p]| == DIGEST }

  predicate Under(f: Path, p: Path) { |f| < |p| && f == p[..|f|] }

  predicate IsFolder(files: Files, f: Path) { f == ROOT || exists p :: p in files && Under(f, p) }

  function FileNames(files: Files, f: Path): set<string> {
    set p | p in files && Under(f, p) && |p| == |f| + 1 :: p[|f|]
  }

  function FolderNames(files: Files, f: Path): set<string> {
    set p | p in files && Under(f, p) && |p| > |f| + 1 :: p[|f|]
  }

  lemma FileNameIs(files: Files, f: Path, name: string)
    ensures name in FileNames(files, f) <==> f + [name] in files
  {
    if name in FileNames(files, f) {
      var p :| p in files && Under(f, p) && |p| == |f| + 1 && p[|f|] == name;
      assert p == f + [name];
    }
    if f + [name] in files {
      var p := f + [name];
      assert Under(f, p) && p[|f|] == name;
    }
  }

  lemma FolderNameIs(files: Files, f: Path, name: string)
    ensures name in FolderNames(files, f) <==> f + [name] != ROOT && IsFolder(files, f + [name])
  {
    var g := f + [name];
    if name in FolderNames(files, f) {
      var p :| p in files && Under(f, p) && |p| > |f| + 1 && p[|f|] == name;
      assert p[..|g|] == p[..|f|] + [name];
      assert Under(g, p);
    }
    if IsFolder(files, g) {
      var p :| p in files && Under(g, p);
      assert p[..|f|] == g[..|f|] == f;
      assert Under(f, p) && p[|f|] == g[|f|];
    }
  }

  // ---------- Termination: children are strictly deeper ----------

  ghost function Deepest(paths: set<Path>): (d: nat)
    ensures forall p :: p in paths ==> |p| <= d
    decreases |paths|
  {
    if paths == {} then 0
    else
      var p := Pick(paths);
      var rest := Deepest(paths - {p});
      if |p| > rest then |p| else rest
  }

  ghost function Height(files: Files, f: Path): nat {
    var d := Deepest(files.Keys);
    if |f| <= d then d - |f| else 0
  }

  lemma ChildIsDeeper(files: Files, f: Path, name: string)
    requires name in FolderNames(files, f)
    ensures Height(files, f + [name]) < Height(files, f)
  {
    var p :| p in files && Under(f, p) && |p| > |f| + 1 && p[|f|] == name;
    assert p in files.Keys;
  }

  // ---------- The definition ----------

  /** What a hash object has been fed after these updates. */
  ghost function Joined(blocks: seq<string>): string {
    if blocks == [] then "" else Joined(blocks[..|blocks| - 1]) + blocks[|blocks| - 1]
  }

  ghost function FileBlocks(files: Files, f: Path, names: seq<string>): (r: seq<string>)
    requires forall i :: 0 <= i < |names| ==> f + [names[i]] in files
    ensures |r| == |names| && forall i :: 0 <= i < |names| ==> r[i] == files[f + [names[i]]]
  {
    if names == [] then []
    else FileBlocks(files, f, names[..|names| - 1]) + [files[f + [names[|names| - 1]]]]
  }

  ghost function FolderBlocks(hash: Hash, files: Files, f: Path, names: seq<string>): (r: seq<string>)
    requires forall i :: 0 <= i < |names| ==> names[i] in FolderNames(files, f)
    ensures |r| == |names|
    decreases Height(files, f), 0, |names|
  {
    if names == [] then []
    else
      var n := |names| - 1;
      ChildIsDeeper(files, f, names[n]);
      FolderBlocks(hash, files, f, names[..n]) + [FolderHash(hash, files, f + [names[n]])]
  }

  /** The digests of a folder's own files, in name order. */
  ghost function Digests(files: Files, f: Path): seq<string> {
    var here := Ascending(FileNames(files, f));
    FileNamesPresent(files, f, here);
    FileBlocks(files, f, here)
  }

  ghost function Blocks(hash: Hash, files: Files, f: Path): seq<string>
    decreases Height(files, f), 1
  {
    Digests(files, f) + FolderBlocks(hash, files, f, Ascending(FolderNames(files, f)))
  }

  lemma FileNamesPresent(files: Files, f: Path, names: seq<string>)
    requires forall i :: 0 <= i < |names| ==> names[i] in FileNames(files, f)
    ensures forall i :: 0 <= i < |names| ==> f + [names[i]] in files
  {
    forall i | 0 <= i < |names| ensures f + [names[i]] in files {
      FileNameIs(files, f, names[i]);
    }
  }

  ghost function FolderHash(hash: Hash, files: Files, f: Path): string
    decreases Height(files, f), 2
  {
    hash(Joined(Blocks(hash, files, f)))
  }

  ghost function RootHash(hash: Hash, files: Files): string { FolderHash(hash, files, ROOT) }

  // ---------- What a hash reveals ----------

  lemma {:induction false} FolderBlockAt(hash: Hash, files: Files, f: Path, names: seq<string>, i: nat)
    requires forall j :: 0 <= j < |names| ==> names[j] in FolderNames(files, f)
    requires i < |names|
    ensures FolderBlocks(hash, files, f, names)[i] == FolderHash(hash, files, f + [names[i]])
  {
    if i < |names| - 1 {
      FolderBlockAt(hash, files, f, names[..|names| - 1], i);
    }
  }

  lemma {:induction false} JoinedLength(blocks: seq<string>)
    requires forall i :: 0 <= i < |blocks| ==> |blocks[i]| == DIGEST
    ensures |Joined(blocks)| == DIGEST * |blocks|
  {
    if blocks != [] {
      JoinedLength(blocks[..|blocks| - 1]);
    }
  }

  /** Digests of one length can be read back from their concatenation. */
  lemma {:induction false} JoinedInjective(a: seq<string>, b: seq<string>)
    requires |a| == |b| && Joined(a) == Joined(b)
    requires forall i :: 0 <= i < |a| ==> |a[i]| == DIGEST && |b[i]| == DIGEST
    ensures a == b
  {
    if a != [] {
      var n := |a| - 1;
      var x, y := Joined(a[..n]), Joined(b[..n]);
      JoinedLength(a[..n]);
      JoinedLength(b[..n]);
      assert x == (x + a[n])[..|x|] && y == (y + b[n])[..|x|];
      assert a[n] == (x + a[n])[|x|..] && b[n] == (y + b[n])[|x|..];
      JoinedInjective(a[..n], b[..n]);
      assert a == a[..n] + [a[n]] && b == b[..n] + [b[n]];
    }
  }

  /** No folder of the two trees is a collision of the hash. */
  ghost predicate NoCollision(hash: Hash, a: Files, b: Files) {
    forall f :: IsFolder(a, f) && FolderHash(hash, a, f) == FolderHash(hash, b, f)
            ==> Joined(Blocks(hash, a, f)) == Joined(Blocks(hash, b, f))
  }

  lemma SameShape(a: Files, b: Files, f: Path)
    requires a.Keys == b.Keys
    ensures FileNames(a, f) == FileNames(b, f) && FolderNames(a, f) == FolderNames(b, f)
    ensures IsFolder(a, f) <==> IsFolder(b, f)
    ensures Height(a, f) == Height(b, f)
  {
    assert forall p :: p in a <==> p in b;
  }

  lemma {:induction false} FolderBlocksLength(hash: Hash, files: Files, f: Path, names: seq<string>)
    requires FixedLength(hash) && forall j :: 0 <= j < |names| ==> names[j] in FolderNames(files, f)
    ensures forall i :: 0 <= i < |names| ==> |FolderBlocks(hash, files, f, names)[i]| == DIGEST
  {
    forall i | 0 <= i < |names| ensures |FolderBlocks(hash, files, f, names)[i]| == DIGEST {
      FolderBlockAt(hash, files, f, names, i);
    }
  }

  lemma BlocksLength(hash: Hash, files: Files, f: Path)
    requires FixedLength(hash) && WellFormed(files)
    ensures |Blocks(hash, files, f)| == |FileNames(files, f)| + |FolderNames(files, f)|
    ensures forall i :: 0 <= i < |Blocks(hash, files, f)| ==> |Blocks(hash, files, f)[i]| == DIGEST
  {
    FolderBlocksLength(hash, files, f, Ascending(FolderNames(files, f)));
    FileNamesPresent(files, f, Ascending(FileNames(files, f)));
  }

  /** The block of a file, and of a folder, stands at its name's place. */
  lemma FileBlockAt(hash: Hash, files: Files, f: Path, i: nat)
    requires i < |FileNames(files, f)|
    ensures i < |Blocks(hash, files, f)|
    ensures var p := f + [Ascending(FileNames(files, f))[i]]; p in files && Blocks(hash, files, f)[i] == files[p]
  {
    FileNamesPresent(files, f, Ascending(FileNames(files, f)));
  }

  lemma ChildBlockAt(hash: Hash, files: Files, f: Path, k: nat)
    requires k < |FolderNames(files, f)|
    ensures |FileNames(files, f)| + k < |Blocks(hash, files, f)|
    ensures var child := f + [Ascending(FolderNames(files, f))[k]];
            Blocks(hash, files, f)[|FileNames(files, f)| + k] == FolderHash(hash, files, child)
  {
    FolderBlockAt(hash, files, f, Ascending(FolderNames(files, f)), k);
    SecondPart(Digests(files, f), FolderBlocks(hash, files, f, Ascending(FolderNames(files, f))), k);
  }

  lemma SecondPart<T>(a: seq<T>, b: seq<T>, k: nat)
    requires k < |b|
    ensures (a + b)[|a| + k] == b[k]
  {
  }

  lemma SameHashSameBlocks(hash: Hash, a: Files, b: Files, f: Path)
    requires a.Keys == b.Keys && WellFormed(a) && WellFormed(b) && FixedLength(hash) && NoCollision(hash, a, b)
    requires IsFolder(a, f) && FolderHash(hash, a, f) == FolderHash(hash, b, f)
    ensures Blocks(hash, a, f) == Blocks(hash, b, f)
  {
    SameShape(a, b, f);
    BlocksLength(hash, a, f);
    BlocksLength(hash, b, f);
    JoinedInjective(Blocks(hash, a, f), Blocks(hash, b, f));
  }

  lemma SameBlocksHere(hash: Hash, a: Files, b: Files, f: Path, name: string)
    requires a.Keys == b.Keys && Blocks(hash, a, f) == Blocks(hash, b, f) && f + [name] in a
    ensures f + [name] in b && a[f + [name]] == b[f + [name]]
  {
    SameShape(a, b, f);
    FileNameIs(a, f, name);
    var i := Index(Ascending(FileNames(a, f)), name);
    FileBlockAt(hash, a, f, i);
    FileBlockAt(hash, b, f, i);
  }

  lemma SameBlocksBelow(hash: Hash, a: Files, b: Files, f: Path, name: string)
    requires a.Keys == b.Keys && Blocks(hash, a, f) == Blocks(hash, b, f) && name in FolderNames(a, f)
    ensures FolderHash(hash, a, f + [name]) == FolderHash(hash, b, f + [name])
  {
    SameShape(a, b, f);
    var k := Index(Ascending(FolderNames(a, f)), name);
    ChildBlockAt(hash, a, f, k);
    ChildBlockAt(hash, b, f, k);
  }

  /** Equal hashes mean equal files, all the way down. */
  lemma {:induction false} SameHashSameFile(hash: Hash, a: Files, b: Files, f: Path, p: Path)
    requires a.Keys == b.Keys && WellFormed(a) && WellFormed(b) && FixedLength(hash) && NoCollision(hash, a, b)
    requires FolderHash(hash, a, f) == FolderHash(hash, b, f)
    requires p in a && Under(f, p)
    ensures p in b && a[p] == b[p]
    decreases |p| - |f|
  {
    SameHashSameBlocks(hash, a, b, f);
    var name := p[|f|];
    var child := f + [name];
    assert p[..|child|] == child;
    if |p| == |child| {
      assert p == child;
      SameBlocksHere(hash, a, b, f, name);
    } else {
      assert Under(child, p);
      FolderNameIs(a, f, name);
      SameBlocksBelow(hash, a, b, f, name);
      SameHashSameFile(hash, a, b, child, p);
    }
  }

  ghost function Index(names: seq<string>, name: string): (i: nat)
    requires name in names
    ensures i < |names| && names[i] == name
  {
    var i: nat :| i < |names| && names[i] == name; i
  }

  lemma SameFileBlocks(a: Files, b: Files, f: Path, names: seq<string>)
    requires forall i :: 0 <= i < |names| ==> f + [names[i]] in a && f + [names[i]] in b
    requires forall p :: p in a && p in b && Under(f, p) ==> a[p] == b[p]
    ensures FileBlocks(a, f, names) == FileBlocks(b, f, names)
  {
    forall i | 0 <= i < |names| ensures a[f + [names[i]]] == b[f + [names[i]]] {
      assert Under(f, f + [names[i]]);
    }
  }

  lemma SameFolderBlocks(hash: Hash, a: Files, b: Files, f: Path, names: seq<string>)
    requires forall k :: 0 <= k < |names| ==> names[k] in FolderNames(a, f) && names[k] in FolderNames(b, f)
    requires forall k :: 0 <= k < |names| ==> FolderHash(hash, a, f + [names[k]]) == FolderHash(hash, b, f + [names[k]])
    ensures FolderBlocks(hash, a, f, names) == FolderBlocks(hash, b, f, names)
  {
    forall k | 0 <= k < |names|
      ensures FolderBlocks(hash, a, f, names)[k] == FolderBlocks(hash, b, f, names)[k]
    {
      FolderBlockAt(hash, a, f, names, k);
      FolderBlockAt(hash, b, f, names, k);
    }
  }

  ghost predicate SameBelow(a: Files, b: Files, f: Path) {
    a.Keys == b.Keys && forall p :: p in a && p in b && Under(f, p) ==> a[p] == b[p]
  }

  /** Equal files mean equal hashes, whatever the rest of the tree holds. */
  lemma {:induction false} SameFilesSameHash(hash: Hash, a: Files, b: Files, f: Path)
    requires SameBelow(a, b, f)
    ensures FolderHash(hash, a, f) == FolderHash(hash, b, f)
    decreases Height(a, f)
  {
    SameShape(a, b, f);
    var here, below := Ascending(FileNames(a, f)), Ascending(FolderNames(a, f));
    FileNamesPresent(a, f, here);
    SameFileBlocks(a, b, f, here);
    forall k | 0 <= k < |below|
      ensures FolderHash(hash, a, f + [below[k]]) == FolderHash(hash, b, f + [below[k]])
    {
      ChildIsDeeper(a, f, below[k]);
      SameBelowChild(a, b, f, below[k]);
      SameFilesSameHash(hash, a, b, f + [below[k]]);
    }
    SameFolderBlocks(hash, a, b, f, below);
  }

  lemma SameBelowChild(a: Files, b: Files, f: Path, name: string)
    requires SameBelow(a, b, f)
    ensures SameBelow(a, b, f + [name])
  {
    forall p | p in a && p in b && Under(f + [name], p) ensures a[p] == b[p] {
      assert p[..|f|] == p[..|f| + 1][..|f|];
      assert Under(f, p);
    }
  }

  /** Two trees of the same paths: a folder's hash is the same exactly when every
      file under it is, so the folder hashes say where the changes are. */
  lemma FolderHashesLocateChanges(hash: Hash, a: Files, b: Files, f: Path)
    requires a.Keys == b.Keys && WellFormed(a) && WellFormed(b) && FixedLength(hash) && NoCollision(hash, a, b)
    ensures FolderHash(hash, a, f) == FolderHash(hash, b, f)
        <==> SameBelow(a, b, f)
  {
    if FolderHash(hash, a, f) == FolderHash(hash, b, f) {
      forall p | p in a && Under(f, p) ensures a[p] == b[p] {
        SameHashSameFile(hash, a, b, f, p);
      }
    } else if SameBelow(a, b, f) {
      SameFilesSameHash(hash, a, b, f);
    }
  }

  /** The root hash is the same exactly when every file is. */
  lemma RootsEqualIffFilesEqual(hash: Hash, a: Files, b: Files)
    requires a.Keys == b.Keys && WellFormed(a) && WellFormed(b) && FixedLength(hash) && NoCollision(hash, a, b)
    ensures RootHash(hash, a) == RootHash(hash, b) <==> a == b
  {
    FolderHashesLocateChanges(hash, a, b, ROOT);
    if RootHash(hash, a) == RootHash(hash, b) {
      forall p | p in a ensures a[p] == b[p] {
        assert Under(ROOT, p);
      }
    }
  }
}
