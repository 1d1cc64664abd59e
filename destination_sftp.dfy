/**
 * The destination SFTP repository (SftpDestinationRepositoryImpl): parent-path
 * extraction, the check-then-create loop over path prefixes, and the transfer
 * that runs it before writing.
 *
 * The remote server is the class `DestinationSession`: the set of directories
 * that exist, the files written, and the log of `mkdir` calls. Network I/O is
 * left out; how the final `write` ends and whether closing the stream throws
 * are parameters.
 */
module DestinationSftp {
  import opened Wrappers

  type Bytes = seq<bv8>

  /** `s.lastIndexOf(c)`: the last position of `c`, or -1. */
  function LastIndexOf(s: string, c: char): (k: int)
    ensures -1 <= k < |s|
    ensures k >= 0 ==> s[k] == c
    ensures forall j :: k < j < |s| ==> s[j] != c
  {
    if s == [] then -1
    else if s[|s| - 1] == c then |s| - 1
    else LastIndexOf(s[..|s| - 1], c)
  }

  /**
   * `getParentPath`: the text before the last '/', or "" when there is no
   * '/' or the only one that matters is at index 0.
   */
  function ParentPath(fullPath: string): (r: string)
    ensures r == "" <==> forall j :: 0 < j < |fullPath| ==> fullPath[j] != '/'
    ensures r != "" ==>
      |r| < |fullPath| && fullPath[..|r|] == r && fullPath[|r|] == '/'
      && forall j :: |r| < j < |fullPath| ==> fullPath[j] != '/'
  {
    var lastSlash := LastIndexOf(fullPath, '/');
    if lastSlash <= 0 then "" else fullPath[..lastSlash]
  }

  /** The examples in `getParentPath`'s documentation. */
  lemma ParentPathExamples()
    ensures ParentPath("/organized/a1/b2/file.txt") == "/organized/a1/b2"
    ensures ParentPath("/file.txt") == ""
    ensures ParentPath("/dir/") == "/dir"
    ensures ParentPath("file.txt") == ""
  {
    assert "/organized/a1/b2/file.txt"[16] == '/';
    assert "/organized/a1/b2/file.txt"[..16] == "/organized/a1/b2";
    assert "/dir/"[4] == '/';
    assert "/dir/"[..4] == "/dir";
  }

  /** Every piece of `s` between separators '/', empty pieces included. */
  function SplitAll(s: string): (pieces: seq<string>)
    ensures |pieces| > 0
    decreases |s|
  {
    var k := LastIndexOf(s, '/');
    if k < 0 then [s] else SplitAll(s[..k]) + [s[k + 1..]]
  }

  function DropTrailingEmpty(pieces: seq<string>): seq<string> {
    if pieces == [] || pieces[|pieces| - 1] != "" then pieces
    else DropTrailingEmpty(pieces[..|pieces| - 1])
  }

  /**
   * `s.split("/")`: the string itself when it holds no '/', otherwise every
   * piece with the trailing empty ones removed.
   */
  function JavaSplit(s: string): seq<string> {
    if LastIndexOf(s, '/') < 0 then [s] else DropTrailingEmpty(SplitAll(s))
  }

  /** `currentPath` after the loop has seen `segments`: "/" + segment for each non-empty one. */
  function PathOf(segments: seq<string>): (p: string)
    ensures p == "" || p[0] == '/'
  {
    if segments == [] then ""
    else
      var last := segments[|segments| - 1];
      PathOf(segments[..|segments| - 1]) + (if last == "" then "" else "/" + last)
  }

  /** Every value `currentPath` takes: one per non-empty segment, in order. */
  function PrefixesOf(segments: seq<string>): (ps: seq<string>)
    ensures ps != [] ==> ps[|ps| - 1] == PathOf(segments)
  {
    if segments == [] then []
    else
      var last := segments[|segments| - 1];
      PrefixesOf(segments[..|segments| - 1]) + (if last == "" then [] else [PathOf(segments)])
  }

  /** The directories `createParentDirectories(remotePath)` makes sure of, in creation order. */
  function Ancestors(remotePath: string): seq<string> {
    var parent := ParentPath(remotePath);
    if parent == "" then [] else PrefixesOf(JavaSplit(parent))
  }

  function SetOf(ps: seq<string>): set<string> {
    set i | 0 <= i < |ps| :: ps[i]
  }

  /** The entries of `ps` not in `existing`, in order: the `mkdir` calls. */
  function Missing(existing: set<string>, ps: seq<string>): (r: seq<string>)
    ensures forall i :: 0 <= i < |r| ==> r[i] !in existing && r[i] in ps
  {
    if ps == [] then []
    else
      var last := ps[|ps| - 1];
      Missing(existing, ps[..|ps| - 1]) + (if last in existing then [] else [last])
  }

  /**
   * A directory path in canonical form: after its last '/' comes a non-empty
   * segment, and before it either nothing (the leading '/') or again a
   * canonical path. So: absolute, no empty segment, no trailing '/'.
   */
  predicate IsNormal(s: string)
    decreases |s|
  {
    var k := LastIndexOf(s, '/');
    0 <= k < |s| - 1 && (k == 0 || IsNormal(s[..k]))
  }

  lemma {:induction false} NormalIsAbsolute(s: string)
    requires IsNormal(s)
    ensures |s| > 1 && s[0] == '/'
    decreases |s|
  {
    var k := LastIndexOf(s, '/');
    if k > 0 {
      NormalIsAbsolute(s[..k]);
    }
  }

  /** `d` is `path` itself or a directory above it: a prefix of it that ends where a '/' follows. */
  predicate IsDirPrefix(d: string, path: string) {
    0 < |d| <= |path| && path[..|d|] == d && (|d| == |path| || path[|d|] == '/')
  }

  /** The directories at and above `s`: its prefixes that end where a '/' follows, and `s` itself. */
  function DirPrefixes(s: string): set<string> {
    set j | 0 < j <= |s| && IsDirPrefix(s[..j], s) :: s[..j]
  }

  /** Below the first '/', a canonical path has only itself as a directory prefix. */
  lemma DirPrefixesTop(s: string)
    requires IsNormal(s) && LastIndexOf(s, '/') == 0
    ensures DirPrefixes(s) == {s}
  {
    forall d | d in DirPrefixes(s) ensures d == s {
      var j :| 0 < j <= |s| && IsDirPrefix(s[..j], s) && d == s[..j];
      assert |d| == j;
    }
    assert s[..|s|] == s;
    assert IsDirPrefix(s[..|s|], s);
  }

  /** Cutting a canonical path at its last '/' loses exactly the path itself from its directory prefixes. */
  lemma DirPrefixesStep(s: string, k: int)
    requires IsNormal(s) && k == LastIndexOf(s, '/') && k > 0
    ensures DirPrefixes(s) == DirPrefixes(s[..k]) + {s}
  {
    var init := s[..k];
    forall d | d in DirPrefixes(s) ensures d in DirPrefixes(init) || d == s {
      var j :| 0 < j <= |s| && IsDirPrefix(s[..j], s) && d == s[..j];
      if j < |s| {
        assert j <= k;
        assert init[..j] == d;
        assert IsDirPrefix(init[..j], init);
      }
    }
    forall d | d in DirPrefixes(init) ensures d in DirPrefixes(s) {
      var j :| 0 < j <= |init| && IsDirPrefix(init[..j], init) && d == init[..j];
      assert s[..j] == d;
      assert IsDirPrefix(s[..j], s);
    }
    assert s[..|s|] == s;
    assert IsDirPrefix(s[..|s|], s);
  }

  /** One more non-empty segment appends "/" + segment to the path and the path to the prefixes. */
  lemma PiecesSnoc(init: seq<string>, last: string)
    requires last != ""
    ensures PathOf(init + [last]) == PathOf(init) + "/" + last
    ensures PrefixesOf(init + [last]) == PrefixesOf(init) + [PathOf(init) + "/" + last]
  {
    assert (init + [last])[..|init|] == init;
  }

  /** One loop step of `createParentDirectories`: an empty segment changes nothing, any other extends the path. */
  lemma SegmentStep(segments: seq<string>, i: int)
    requires 0 <= i < |segments|
    ensures segments[i] == "" ==>
      PathOf(segments[..i + 1]) == PathOf(segments[..i])
      && PrefixesOf(segments[..i + 1]) == PrefixesOf(segments[..i])
    ensures segments[i] != "" ==>
      var p := PathOf(segments[..i]) + "/" + segments[i];
      PathOf(segments[..i + 1]) == p
      && PrefixesOf(segments[..i + 1]) == PrefixesOf(segments[..i]) + [p]
      && p !in SetOf(PrefixesOf(segments[..i]))
  {
    assert segments[..i + 1][..i] == segments[..i];
    PrefixesBounded(segments[..i]);
  }

  lemma SetOfSnoc(ps: seq<string>, x: string)
    ensures SetOf(ps + [x]) == SetOf(ps) + {x}
  {
    assert forall i :: 0 <= i < |ps| ==> (ps + [x])[i] == ps[i];
    assert (ps + [x])[|ps|] == x;
  }

  lemma MissingSnoc(existing: set<string>, ps: seq<string>, x: string)
    ensures Missing(existing, ps + [x]) == Missing(existing, ps) + (if x in existing then [] else [x])
  {
    assert (ps + [x])[..|ps|] == ps;
  }

  /** A string is the text before a '/', the '/', and the text after it. */
  lemma CutAtSlash(s: string, k: int)
    requires 0 <= k < |s| && s[k] == '/'
    ensures s[..k] + "/" + s[k + 1..] == s
  {
  }

  /**
   * One directory of the loop, checked against the state the loop has built:
   * it exists now exactly when it existed at the start, and checking then
   * creating it extends both the directory set and the `mkdir` log as the
   * prefix list grows.
   */
  lemma CreateStep(dirs: set<string>, fileKeys: set<string>, made: seq<string>, p: string, calls: seq<string>)
    requires p !in SetOf(made)
    ensures p in dirs + (SetOf(made) - fileKeys) || p in fileKeys <==> p in dirs + fileKeys
    ensures p !in dirs + fileKeys ==>
      dirs + (SetOf(made + [p]) - fileKeys) == dirs + (SetOf(made) - fileKeys) + {p}
      && calls + Missing(dirs + fileKeys, made + [p]) == calls + Missing(dirs + fileKeys, made) + [p]
    ensures p in dirs + fileKeys ==>
      dirs + (SetOf(made + [p]) - fileKeys) == dirs + (SetOf(made) - fileKeys)
      && Missing(dirs + fileKeys, made + [p]) == Missing(dirs + fileKeys, made)
  {
    SetOfSnoc(made, p);
    MissingSnoc(dirs + fileKeys, made, p);
  }

  /** An empty segment neither extends the path nor adds a prefix. */
  lemma EmptySegmentSnoc(init: seq<string>)
    ensures PathOf(init + [""]) == PathOf(init)
    ensures PrefixesOf(init + [""]) == PrefixesOf(init)
  {
    assert (init + [""])[..|init|] == init;
  }

  /** The pieces of the empty string. */
  lemma EmptyPieces()
    ensures SplitAll("") == [""] && PathOf([""]) == "" && PrefixesOf([""]) == []
  {
    assert [""][..0] == [];
  }

  /** For a canonical path, rebuilding it from its pieces gives it back. */
  lemma {:induction false} PathOfSplitNormal(s: string)
    requires IsNormal(s)
    ensures PathOf(SplitAll(s)) == s
    decreases |s|
  {
    var k := LastIndexOf(s, '/');
    var init, last := s[..k], s[k + 1..];
    assert last != "";
    SplitAllUnfold(s);
    var ip := SplitAll(init);
    if k == 0 {
      EmptyPieces();
    } else {
      PathOfSplitNormal(init);
    }
    assert PathOf(ip) == init;
    PiecesSnoc(ip, last);
    CutAtSlash(s, k);
  }

  /** For a canonical path, the values `currentPath` takes are exactly its directory prefixes. */
  lemma {:induction false} PrefixesOfSplitNormal(s: string)
    requires IsNormal(s)
    ensures SetOf(PrefixesOf(SplitAll(s))) == DirPrefixes(s)
    decreases |s|
  {
    var k := LastIndexOf(s, '/');
    if k == 0 {
      PrefixesTopCase(s);
    } else {
      PrefixesOfSplitNormal(s[..k]);
      PrefixesStepCase(s, k);
    }
  }

  lemma PrefixesTopCase(s: string)
    requires IsNormal(s) && LastIndexOf(s, '/') == 0
    ensures SetOf(PrefixesOf(SplitAll(s))) == DirPrefixes(s)
  {
    var last := s[1..];
    SplitAllUnfold(s);
    EmptyPieces();
    assert s[..0] == "";
    PiecesSnoc([""], last);
    assert PrefixesOf(SplitAll(s)) == [PathOf([""]) + "/" + last];
    CutAtSlash(s, 0);
    assert PrefixesOf(SplitAll(s)) == [s];
    SetOfSnoc([], s);
    DirPrefixesTop(s);
  }

  lemma PrefixesStepCase(s: string, k: int)
    requires IsNormal(s) && k == LastIndexOf(s, '/') && k > 0
    requires SetOf(PrefixesOf(SplitAll(s[..k]))) == DirPrefixes(s[..k])
    ensures SetOf(PrefixesOf(SplitAll(s))) == DirPrefixes(s)
  {
    var init, last := s[..k], s[k + 1..];
    SplitAllUnfold(s);
    var ip := SplitAll(init);
    PiecesSnoc(ip, last);
    PathOfSplitNormal(init);
    CutAtSlash(s, k);
    var ps := PrefixesOf(ip);
    assert PrefixesOf(SplitAll(s)) == ps + [s];
    SetOfSnoc(ps, s);
    DirPrefixesStep(s, k);
  }

  /** Every value `currentPath` takes is absolute and at most as long as its final value. */
  lemma {:induction false} PrefixesBounded(segments: seq<string>)
    ensures forall q :: q in SetOf(PrefixesOf(segments)) ==> |q| <= |PathOf(segments)|
    ensures forall q :: q in SetOf(PrefixesOf(segments)) ==> |q| > 1 && q[0] == '/'
  {
    if segments != [] {
      var init := segments[..|segments| - 1];
      var last := segments[|segments| - 1];
      PrefixesBounded(init);
      if last != "" {
        assert segments == init + [last];
        PiecesSnoc(init, last);
        SetOfSnoc(PrefixesOf(init), PathOf(segments));
      }
    }
  }

  /** `SplitAll` cuts at the last '/'. */
  lemma SplitAllUnfold(s: string)
    ensures var k := LastIndexOf(s, '/');
      k >= 0 ==> SplitAll(s) == SplitAll(s[..k]) + [s[k + 1..]]
  {
  }

  /** Trailing empty pieces create nothing, so Java's dropping them changes no prefix. */
  lemma {:induction false} DropTrailingEmptyPrefixes(pieces: seq<string>)
    ensures PrefixesOf(DropTrailingEmpty(pieces)) == PrefixesOf(pieces)
  {
    if pieces != [] && pieces[|pieces| - 1] == "" {
      DropTrailingEmptyPrefixes(pieces[..|pieces| - 1]);
    }
  }

  /**
   * For a canonical parent directory, the directories `createParentDirectories`
   * makes sure of are exactly the parent and the directories above it.
   */
  lemma AncestorsAreDirPrefixes(remotePath: string)
    requires IsNormal(ParentPath(remotePath))
    ensures var parent := ParentPath(remotePath);
      SetOf(Ancestors(remotePath)) == DirPrefixes(parent)
    ensures ParentPath(remotePath) in SetOf(Ancestors(remotePath))
  {
    var parent := ParentPath(remotePath);
    NormalIsAbsolute(parent);
    assert Ancestors(remotePath) == PrefixesOf(JavaSplit(parent));
    JavaSplitLikeSplitAll(parent);
    PrefixesOfSplitNormal(parent);
    assert SetOf(Ancestors(remotePath)) == DirPrefixes(parent);
    SelfInDirPrefixes(parent);
  }

  lemma SelfInDirPrefixes(s: string)
    requires s != ""
    ensures s in DirPrefixes(s)
  {
    assert s[..|s|] == s;
    assert IsDirPrefix(s[..|s|], s);
  }

  /** The entries of a prefix list grow strictly in length, so none repeats. */
  lemma {:induction false} PrefixesGrow(segments: seq<string>)
    ensures var ps := PrefixesOf(segments);
      forall i, j :: 0 <= i < j < |ps| ==> |ps[i]| < |ps[j]|
  {
    if segments != [] {
      var init, last := segments[..|segments| - 1], segments[|segments| - 1];
      PrefixesGrow(init);
      var ps0 := PrefixesOf(init);
      assert segments == init + [last];
      if last == "" {
        EmptySegmentSnoc(init);
      } else {
        PiecesSnoc(init, last);
        PrefixesBounded(init);
        forall i | 0 <= i < |ps0| ensures |ps0[i]| < |PathOf(init) + "/" + last| {
          assert ps0[i] in SetOf(ps0);
        }
      }
    }
  }

  /** Once every entry of `ps` exists, none of them is missing. */
  lemma {:induction false} NothingMissingOnceMade(existing: set<string>, ps: seq<string>)
    requires SetOf(ps) <= existing
    ensures Missing(existing, ps) == []
  {
    if ps != [] {
      var init, last := ps[..|ps| - 1], ps[|ps| - 1];
      assert ps == init + [last];
      SetOfSnoc(init, last);
      NothingMissingOnceMade(existing, init);
    }
  }

  /**
   * Running `createParentDirectories` again for the same path, on the
   * directories the first run left, makes no `mkdir` call and adds no
   * directory.
   */
  lemma CreateParentDirectoriesIdempotent(dirs: set<string>, fileKeys: set<string>, remotePath: string)
    ensures var after := dirs + (SetOf(Ancestors(remotePath)) - fileKeys);
      Missing(after + fileKeys, Ancestors(remotePath)) == []
      && after + (SetOf(Ancestors(remotePath)) - fileKeys) == after
  {
    NothingMissingOnceMade(dirs + (SetOf(Ancestors(remotePath)) - fileKeys) + fileKeys, Ancestors(remotePath));
  }

  /**
   * How `session.write` ends: it returns with every byte at the remote
   * path, or it throws, leaving there the part it wrote (`Some`) or nothing
   * new (`None`). What a broken-off write leaves is up to the server.
   */
  datatype WriteResult =
    | Written
    | BrokenOff(left: Option<Bytes>)

  /**
   * The files after a `write` to `remotePath`: the whole data when it
   * returned, what it left when it broke off. No other path changes.
   */
  function AfterWrite(files: map<string, Bytes>, remotePath: string, data: Bytes, write: WriteResult)
    : (r: map<string, Bytes>)
    ensures write.Written? ==> remotePath in r && r[remotePath] == data
    ensures write.BrokenOff? && write.left.Some? ==> remotePath in r && r[remotePath] == write.left.value
    ensures write.BrokenOff? && write.left.None? ==> r == files
    ensures forall p :: p != remotePath ==>
      (p in r <==> p in files) && (p in r ==> r[p] == files[p])
  {
    match write
    case Written => files[remotePath := data]
    case BrokenOff(left) => if left.Some? then files[remotePath := left.value] else files
  }

  /** A regular file occupies one of the directories `remotePath` needs. */
  predicate UnderFile(files: map<string, Bytes>, remotePath: string) {
    SetOf(Ancestors(remotePath)) * files.Keys != {}
  }

  lemma DisjointMinus(a: set<string>, b: set<string>)
    requires a * b == {}
    ensures a - b == a
  {
    forall x | x in a
      ensures x !in b
    {
      assert x !in a * b;
    }
  }

  /** The remote server as the destination session sees it. */
  class DestinationSession {
    var dirs: set<string>
    var files: map<string, Bytes>
    var mkdirCalls: seq<string>

    constructor (dirs: set<string>, files: map<string, Bytes>)
      ensures this.dirs == dirs && this.files == files && mkdirCalls == []
    {
      this.dirs := dirs;
      this.files := files;
      mkdirCalls := [];
    }

    /**
     * `createParentDirectories`: for each non-empty segment of the parent
     * path, extend `currentPath` by "/" + segment and `mkdir` it unless it
     * already `exists`. `exists` is a stat, true for a directory and for a
     * regular file alike, so an ancestor held by a file gets no `mkdir`.
     */
    method CreateParentDirectories(remotePath: string)
      modifies this
      ensures dirs == old(dirs) + (SetOf(Ancestors(remotePath)) - old(files).Keys)
      ensures mkdirCalls == old(mkdirCalls) + Missing(old(dirs) + old(files).Keys, Ancestors(remotePath))
      ensures files == old(files)
    {
      var parentPath := ParentPath(remotePath);
      if parentPath == "" {
        return;
      }
      var segments := JavaSplit(parentPath);
      assert Ancestors(remotePath) == PrefixesOf(segments);
      var currentPath := "";
      ghost var made: seq<string> := [];
      for i := 0 to |segments|
        invariant currentPath == PathOf(segments[..i])
        invariant made == PrefixesOf(segments[..i])
        invariant dirs == old(dirs) + (SetOf(made) - old(files).Keys)
        invariant mkdirCalls == old(mkdirCalls) + Missing(old(dirs) + old(files).Keys, made)
        invariant files == old(files)
      {
        SegmentStep(segments, i);
        if segments[i] != "" {
          currentPath := currentPath + "/" + segments[i];
          CreateStep(old(dirs), old(files).Keys, made, currentPath, old(mkdirCalls));
          if !Exists(currentPath) {
            Mkdir(currentPath);
          }
          made := made + [currentPath];
        }
      }
      assert segments[..|segments|] == segments;
    }

    /** `session.write(stream, path)`: see `AfterWrite`; directories are untouched. */
    method Write(remotePath: string, data: Bytes, write: WriteResult)
      modifies this
      ensures files == AfterWrite(old(files), remotePath, data, write)
      ensures dirs == old(dirs) && mkdirCalls == old(mkdirCalls)
    {
      files := AfterWrite(files, remotePath, data, write);
    }

    /** `session.exists(path)`: a directory or a regular file is there. */
    predicate Exists(path: string)
      reads this
    {
      path in dirs || path in files
    }

    /** `session.mkdir(path)`: the directory exists afterwards and the call is logged. */
    method Mkdir(path: string)
      modifies this
      ensures dirs == old(dirs) + {path}
      ensures mkdirCalls == old(mkdirCalls) + [path]
      ensures files == old(files)
    {
      dirs := dirs + {path};
      mkdirCalls := mkdirCalls + [path];
    }

    /**
     * `createDirectories(path)`: takes the parent of `path` and hands it to
     * `createParentDirectories`, which takes the parent again, so it is the
     * grandparent of `path` whose prefixes are made sure of.
     */
    method CreateDirectories(path: string)
      modifies this
      ensures var parent := ParentPath(path);
        dirs == old(dirs) + (if parent == "" then {} else SetOf(Ancestors(parent)) - old(files).Keys)
      ensures var parent := ParentPath(path);
        mkdirCalls == old(mkdirCalls)
          + (if parent == "" then [] else Missing(old(dirs) + old(files).Keys, Ancestors(parent)))
      ensures files == old(files)
    {
      var parentPath := ParentPath(path);
      if parentPath == "" {
        return;
      }
      CreateParentDirectories(parentPath);
    }

    /**
     * `transferTo`: parents first, then the write inside a
     * try-with-resources whose close, run whether or not the write threw,
     * closes the origin stream. Either failure surfaces as the same
     * RuntimeException message. Directories already created stay, and so
     * does whatever the write left at `remotePath`: the whole file when only
     * the close threw, part of it (or nothing) when the write broke off.
     * When a regular file sits where a parent directory should be, the
     * server refuses the write, whatever `write` says, and nothing is written.
     */
    method TransferTo(remotePath: string, data: Bytes, write: WriteResult, closeFails: bool)
      returns (r: Outcome<string>)
      modifies this
      ensures dirs == old(dirs) + (SetOf(Ancestors(remotePath)) - old(files).Keys)
      ensures mkdirCalls == old(mkdirCalls) + Missing(old(dirs) + old(files).Keys, Ancestors(remotePath))
      ensures r.Pass? <==> write.Written? && !closeFails && !UnderFile(old(files), remotePath)
      ensures r.Fail? ==> r.error == "Failed to transfer file to destination SFTP: " + remotePath
      ensures UnderFile(old(files), remotePath) ==> files == old(files)
      ensures !UnderFile(old(files), remotePath) ==> files == AfterWrite(old(files), remotePath, data, write)
      ensures !UnderFile(old(files), remotePath) ==> SetOf(Ancestors(remotePath)) <= dirs
      ensures IsNormal(ParentPath(remotePath)) ==> ParentPath(remotePath) in dirs + old(files).Keys
      ensures IsNormal(ParentPath(remotePath)) && !UnderFile(old(files), remotePath) ==> ParentPath(remotePath) in dirs
    {
      CreateParentDirectories(remotePath);
      if IsNormal(ParentPath(remotePath)) {
        AncestorsAreDirPrefixes(remotePath);
      }
      var blocked := UnderFile(files, remotePath);
      if !blocked {
        DisjointMinus(SetOf(Ancestors(remotePath)), files.Keys);
      }
      var outcome := if blocked then BrokenOff(None) else write;
      Write(remotePath, data, outcome);
      if outcome.BrokenOff? || closeFails {
        return Fail("Failed to transfer file to destination SFTP: " + remotePath);
      }
      return Pass;
    }
  }

  /** Java's special case for a string without '/' and its dropping of trailing empty pieces change no prefix. */
  lemma JavaSplitLikeSplitAll(s: string)
    ensures PrefixesOf(JavaSplit(s)) == PrefixesOf(SplitAll(s))
    ensures PathOf(JavaSplit(s)) == PathOf(SplitAll(s))
  {
    if LastIndexOf(s, '/') >= 0 {
      DropTrailingEmptyPrefixes(SplitAll(s));
      DropTrailingEmptyPath(SplitAll(s));
    }
  }

  lemma {:induction false} DropTrailingEmptyPath(pieces: seq<string>)
    ensures PathOf(DropTrailingEmpty(pieces)) == PathOf(pieces)
  {
    if pieces != [] && pieces[|pieces| - 1] == "" {
      DropTrailingEmptyPath(pieces[..|pieces| - 1]);
    }
  }

  /** Rebuilding an absolute path from its segments never makes it longer. */
  lemma {:induction false} PathOfSplitShorter(s: string)
    requires s == "" || s[0] == '/'
    ensures |PathOf(SplitAll(s))| <= |s|
    decreases |s|
  {
    var k := LastIndexOf(s, '/');
    if k >= 0 {
      assert SplitAll(s)[..|SplitAll(s)| - 1] == SplitAll(s[..k]);
      PathOfSplitShorter(s[..k]);
    }
  }

  /** Only directories above the target are made sure of: the target path itself never is. */
  lemma LeafNeverCreated(remotePath: string)
    ensures remotePath !in SetOf(Ancestors(remotePath))
  {
    var parent := ParentPath(remotePath);
    if parent != "" {
      JavaSplitLikeSplitAll(parent);
      PrefixesBounded(SplitAll(parent));
      if remotePath[0] == '/' {
        PathOfSplitShorter(parent);
      }
    }
  }

  /**
   * Because `createDirectories` takes the parent twice, the parent of `path`
   * itself is never among the directories it makes sure of.
   */
  lemma CreateDirectoriesMissesParent(path: string)
    ensures var parent := ParentPath(path);
      parent == "" || parent !in SetOf(Ancestors(parent))
  {
    LeafNeverCreated(ParentPath(path));
  }
}
