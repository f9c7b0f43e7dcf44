/** `ArchiveQueue::MoveFiles`: collecting files in a fresh directory.

    The file system is a map from paths to nodes. Whether creating the directory
    and each rename is permitted is decided outside the program and comes in as a
    parameter; nothing else touches the file system meanwhile.
 */
module ArchiveMove {
  import opened Decimal

  datatype Node = Directory | File(content: string)

  type Disk = map<string, Node>

  /** The names tried for the directory: d, d_1, d_2, ... */
  function Candidate(d: string, k: nat): string {
    if k == 0 then d else d + "_" + Digits(k)
  }

  /** `path(file).filename()`: what follows the last slash. */
  function BaseName(path: string): string {
    if path == "" || path[|path| - 1] == '/' then "" else BaseName(path[..|path| - 1]) + [path[|path| - 1]]
  }

  function Within(dir: string, name: string): string { dir + "/" + name }

  /** Nothing is inside a directory that does not exist; the empty path stands for
      what absolute paths start from and need not be an entry. */
  ghost predicate Rooted(fs: Disk) {
    forall d, n :: Within(d, n) in fs && d != "" ==> d in fs
  }

  /** A rename that the file system can carry out. */
  predicate CanRename(fs: Disk, from: string, to: string) {
    from in fs && fs[from].File? && (to in fs ==> fs[to].File?)
  }

  function Rename(fs: Disk, from: string, to: string): Disk
    requires from in fs
  {
    (fs - {from})[to := fs[from]]
  }

  /** The renames that go through: permitted and possible. */
  predicate Moves(fs: Disk, file: string, dir: string, permitted: bool) {
    permitted && CanRename(fs, file, Within(dir, BaseName(file)))
  }

  /** One round of the loop over the files. */
  function MoveOne(mid: Disk, file: string, dir: string, permitted: bool): Disk {
    if Moves(mid, file, dir, permitted) then Rename(mid, file, Within(dir, BaseName(file))) else mid
  }

  /** The disk after the loop over the files. */
  function MoveAll(fs: Disk, files: seq<string>, dir: string, permitted: seq<bool>): Disk
    requires |permitted| == |files|
  {
    if files == [] then fs else
    var n := |files| - 1;
    MoveOne(MoveAll(fs, files[..n], dir, permitted[..n]), files[n], dir, permitted[n])
  }

  /** The base names of the files that were moved, in order. */
  function MovedNames(fs: Disk, files: seq<string>, dir: string, permitted: seq<bool>): seq<string>
    requires |permitted| == |files|
  {
    if files == [] then [] else
    var n := |files| - 1;
    var before := MoveAll(fs, files[..n], dir, permitted[..n]);
    MovedNames(fs, files[..n], dir, permitted[..n]) +
      (if Moves(before, files[n], dir, permitted[n]) then [BaseName(files[n])] else [])
  }

  /** `remove_all` of a directory. */
  function RemoveAll(fs: Disk, dir: string): Disk {
    map p | p in fs && p != dir && !(Within(dir, "") <= p) :: fs[p]
  }

  lemma CandidateInjective(d: string, j: nat, k: nat)
    requires Candidate(d, j) == Candidate(d, k)
    ensures j == k
  {
    if j > 0 && k > 0 {
      assert Candidate(d, j)[|d| + 1..] == Digits(j) && Candidate(d, k)[|d| + 1..] == Digits(k);
      DigitsInjective(j, k);
    } else {
      assert |Candidate(d, j)| == |Candidate(d, k)|;
    }
  }

  /** What the candidates look like: the name itself, then the name, an underscore and
      the suffix's numeral. */
  lemma CandidateReads(d: string, k: nat) returns (num: string)
    ensures Candidate(d, 0) == d
    ensures k > 0 ==> Candidate(d, k) == d + "_" + num && IsNumeral(num) && Value(num) == k && num != "" && num[0] != '0'
  {
    num := Digits(k);
    ValueOfDigits(k);
    NumeralShape(k);
  }

  /** The names that have been looked at before the k-th. */
  function Tried(d: string, k: nat): set<string> { set j | 0 <= j < k :: Candidate(d, j) }

  lemma TriedGrows(d: string, k: nat)
    ensures Candidate(d, k) !in Tried(d, k) && Tried(d, k + 1) == Tried(d, k) + {Candidate(d, k)}
  {
    forall j | 0 <= j < k ensures Candidate(d, j) != Candidate(d, k) {
      if Candidate(d, j) == Candidate(d, k) { CandidateInjective(d, j, k); }
    }
  }

  class ArchiveQueue {
    var fs: Disk

    constructor (initial: Disk)
      ensures fs == initial
    {
      fs := initial;
    }

    /** The search for a name: the first unused one of the sequence. */
    method FreshName(directoryPath: string) returns (dir: string, ghost k: nat)
      ensures dir == Candidate(directoryPath, k) && dir !in fs
      ensures forall j :: 0 <= j < k ==> Candidate(directoryPath, j) in fs
    {
      var suffix: nat := 0;
      dir := directoryPath;
      while dir in fs
        invariant dir == Candidate(directoryPath, suffix)
        invariant Tried(directoryPath, suffix) <= fs.Keys
        decreases |fs.Keys - Tried(directoryPath, suffix)|
      {
        TriedGrows(directoryPath, suffix);
        FewerLeft(fs.Keys, Tried(directoryPath, suffix), dir);
        suffix := suffix + 1;
        dir := directoryPath + "_" + Digits(suffix);
      }
      k := suffix;
      forall j | 0 <= j < k ensures Candidate(directoryPath, j) in fs {
        assert Candidate(directoryPath, j) in Tried(directoryPath, k);
      }
    }

    /** The loop over the files. */
    method MoveInto(files: seq<string>, dir: string, permitted: seq<bool>) returns (moved: bool)
      requires |permitted| == |files|
      modifies this
      ensures fs == MoveAll(old(fs), files, dir, permitted)
      ensures moved <==> MovedNames(old(fs), files, dir, permitted) != []
      ensures !moved ==> fs == old(fs)
    {
      moved := false;
      for i := 0 to |files|
        invariant fs == MoveAll(old(fs), files[..i], dir, permitted[..i])
        invariant moved <==> MovedNames(old(fs), files[..i], dir, permitted[..i]) != []
        invariant !moved ==> fs == old(fs)
      {
        assert files[..i + 1][..i] == files[..i] && permitted[..i + 1][..i] == permitted[..i];
        var fileName := BaseName(files[i]);
        if permitted[i] && CanRename(fs, files[i], Within(dir, fileName)) {
          fs := Rename(fs, files[i], Within(dir, fileName));
          moved := true;
        }
      }
      assert files[..|files|] == files && permitted[..|files|] == permitted;
    }

    method MoveFiles(files: seq<string>, directoryPath: string, mayCreate: bool, permitted: seq<bool>)
      returns (moved: bool, dir: string, ghost k: nat)
      requires Rooted(fs) && |permitted| == |files|
      modifies this
      // the first unused name of the sequence
      ensures dir == Candidate(directoryPath, k) && dir !in old(fs)
      ensures forall j :: 0 <= j < k ==> Candidate(directoryPath, j) in old(fs)
      // what happened to the files
      ensures moved <==> mayCreate && dir != "" && MovedNames(old(fs)[dir := Directory], files, dir, permitted) != []
      ensures moved ==> fs == MoveAll(old(fs)[dir := Directory], files, dir, permitted)
      ensures !moved ==> fs == old(fs)
      // unless two of the files share a name, nothing is lost and nothing is doubled
      ensures moved && NamesDiffer(old(fs), files) ==> Conserves(old(fs)[dir := Directory], fs, dir)
    {
      dir, k := FreshName(directoryPath);
      if !mayCreate || dir == "" {  // there is no directory without a name
        return false, dir, k;
      }
      FreshDirectoryIsEmpty(fs, dir);
      fs := fs[dir := Directory];
      moved := MoveInto(files, dir, permitted);
      if moved && NamesDiffer(old(fs), files) {
        DifferentNamesConserve(old(fs)[dir := Directory], files, dir, permitted);
      }
      if !moved {
        fs := RemoveAll(fs, dir);
      }
    }
  }

  lemma FewerLeft(keys: set<string>, tried: set<string>, dir: string)
    requires dir in keys && dir !in tried
    ensures |keys - (tried + {dir})| < |keys - tried|
  {
    assert keys - tried == (keys - (tried + {dir})) + {dir};
  }

  lemma InsideIsWithin(dir: string, p: string)
    ensures Within(dir, "") <= p ==> p == Within(dir, p[|Within(dir, "")|..])
  {
  }

  lemma FreshDirectoryIsEmpty(fs: Disk, dir: string)
    requires Rooted(fs) && dir !in fs && dir != ""
    ensures RemoveAll(fs[dir := Directory], dir) == fs
    ensures Empty(fs[dir := Directory], dir)
  {
    forall p | p in fs ensures !(Within(dir, "") <= p) { InsideIsWithin(dir, p); }
    forall name ensures Within(dir, name) !in fs[dir := Directory] { assert |Within(dir, name)| > |dir|; }
  }

  // ------------------------------------------------- nothing lost, nothing doubled

  predicate NoDup(names: seq<string>) {
    forall i, j :: 0 <= i < j < |names| ==> names[i] != names[j]
  }

  function SetOf(names: seq<string>): set<string> { set i | 0 <= i < |names| :: names[i] }

  /** A listed path that is a file of the disk. */
  predicate Listed(fs: Disk, files: seq<string>, i: nat) {
    i < |files| && files[i] in fs && fs[files[i]].File?
  }

  /** No two different files on the list share a base name. Paths that do not exist,
      directories, and one path listed twice do not matter. */
  ghost predicate NamesDiffer(fs: Disk, files: seq<string>) {
    forall i: nat, j: nat :: Listed(fs, files, i) && Listed(fs, files, j) && BaseName(files[i]) == BaseName(files[j]) ==>
      files[i] == files[j]
  }

  ghost predicate Empty(fs: Disk, dir: string) { forall name :: Within(dir, name) !in fs }

  /** The directory is empty, and no listed path lies in it. */
  ghost predicate FreshFor(fs: Disk, files: seq<string>, dir: string) {
    Empty(fs, dir) && (forall i, name :: 0 <= i < |files| ==> files[i] != Within(dir, name))
  }

  lemma WithinInjective(dir: string, a: string, b: string)
    requires Within(dir, a) == Within(dir, b)
    ensures a == b
  {
    assert Within(dir, a)[|dir| + 1..] == a && Within(dir, b)[|dir| + 1..] == b;
  }

  /** The directory holds exactly the moved names. */
  lemma {:induction false} HoldsMovedNames(fs: Disk, files: seq<string>, dir: string, permitted: seq<bool>)
    requires |permitted| == |files| && FreshFor(fs, files, dir)
    ensures forall b :: Within(dir, b) in MoveAll(fs, files, dir, permitted) <==> b in MovedNames(fs, files, dir, permitted)
    ensures forall b :: b in MovedNames(fs, files, dir, permitted) ==> exists i :: 0 <= i < |files| && b == BaseName(files[i])
  {
    if files != [] {
      var n := |files| - 1;
      HoldsMovedNames(fs, files[..n], dir, permitted[..n]);
      var names := MovedNames(fs, files[..n], dir, permitted[..n]);
      forall b ensures Within(dir, b) in MoveAll(fs, files, dir, permitted) <==> b in MovedNames(fs, files, dir, permitted) {
        if Within(dir, b) == Within(dir, BaseName(files[n])) { WithinInjective(dir, b, BaseName(files[n])); }
      }
      forall b | b in MovedNames(fs, files, dir, permitted) ensures exists i :: 0 <= i < |files| && b == BaseName(files[i]) {
        if b in names {
          var i :| 0 <= i < n && b == BaseName(files[..n][i]);
          assert b == BaseName(files[i]);
        } else {
          assert b == BaseName(files[n]);
        }
      }
    }
  }

  /** A rename onto an existing file costs one file. */
  lemma RenameSize(fs: Disk, from: string, to: string)
    requires from in fs && from != to
    ensures |Rename(fs, from, to)| == if to in fs then |fs| - 1 else |fs|
  {
    var rest := fs - {from};
    assert fs.Keys == rest.Keys + {from};
    assert rest[to := fs[from]].Keys == rest.Keys + {to};
    assert |fs.Keys| == |rest.Keys| + 1;
  }

  lemma SetOfSnoc(names: seq<string>, b: string)
    ensures SetOf(names + [b]) == SetOf(names) + {b}
    ensures b in SetOf(names) <==> b in names
  {
    var longer := names + [b];
    forall x ensures x in SetOf(longer) <==> x in SetOf(names) + {b} {
      if x in SetOf(names) {
        var i :| 0 <= i < |names| && names[i] == x;
        assert longer[i] == x;
      } else if x == b {
        assert longer[|names|] == x;
      }
    }
  }

  /** One more name: the set of names grows unless the name was there already. */
  lemma SetOfSnocSize(names: seq<string>, b: string)
    ensures |SetOf(names + [b])| == |SetOf(names)| + if b in names then 0 else 1
  {
    SetOfSnoc(names, b);
    if b in names { assert SetOf(names) + {b} == SetOf(names); }
  }

  /** The entries that remain, counted. */
  lemma {:induction false} EntriesRemain(fs: Disk, files: seq<string>, dir: string, permitted: seq<bool>)
    requires |permitted| == |files| && FreshFor(fs, files, dir)
    ensures |MoveAll(fs, files, dir, permitted)| + |MovedNames(fs, files, dir, permitted)|
      == |fs| + |SetOf(MovedNames(fs, files, dir, permitted))|
  {
    if files != [] {
      var n := |files| - 1;
      var before, names := MoveAll(fs, files[..n], dir, permitted[..n]), MovedNames(fs, files[..n], dir, permitted[..n]);
      var b := BaseName(files[n]);
      EntriesRemain(fs, files[..n], dir, permitted[..n]);
      if Moves(before, files[n], dir, permitted[n]) {
        assert Within(dir, b) in before <==> b in names by { HoldsMovedNames(fs, files[..n], dir, permitted[..n]); }
        RenameSize(before, files[n], Within(dir, b));
        SetOfSnocSize(names, b);
        assert MovedNames(fs, files, dir, permitted) == names + [b];
      } else {
        assert MovedNames(fs, files, dir, permitted) == names;
      }
    }
  }

  lemma {:induction false} NoDupByCount(names: seq<string>)
    ensures |SetOf(names)| <= |names|
    ensures NoDup(names) <==> |SetOf(names)| == |names|
  {
    if names != [] {
      var n := |names| - 1;
      NoDupByCount(names[..n]);
      assert names == names[..n] + [names[n]];
      SetOfSnoc(names[..n], names[n]);
      if names[n] !in names[..n] {
        forall i | 0 <= i < n ensures names[i] != names[n] { assert names[..n][i] in names[..n]; }
      } else {
        var i :| 0 <= i < n && names[..n][i] == names[n];
        assert names[i] == names[n];
      }
    }
  }

  /** Exactly when every entry of the disk survives: no two moved files share a base name. */
  lemma SurvivesIff(fs: Disk, files: seq<string>, dir: string, permitted: seq<bool>)
    requires |permitted| == |files| && FreshFor(fs, files, dir)
    ensures |MoveAll(fs, files, dir, permitted)| <= |fs|
    ensures |MoveAll(fs, files, dir, permitted)| == |fs| <==> NoDup(MovedNames(fs, files, dir, permitted))
  {
    EntriesRemain(fs, files, dir, permitted);
    NoDupByCount(MovedNames(fs, files, dir, permitted));
  }

  /** Where the entry that was at p is afterwards. */
  function Home(after: Disk, p: string, dir: string): string {
    if p in after then p else Within(dir, BaseName(p))
  }

  /** Every entry is at home, with its content ... */
  ghost predicate Kept(before: Disk, after: Disk, dir: string) {
    forall p :: p in before ==> Home(after, p, dir) in after && after[Home(after, p, dir)] == before[p]
  }

  /** ... no two of them in one place ... */
  ghost predicate Apart(before: Disk, after: Disk, dir: string) {
    forall p, q :: p in before && q in before && p != q ==> Home(after, p, dir) != Home(after, q, dir)
  }

  /** ... and nothing else is there. */
  ghost predicate NothingElse(before: Disk, after: Disk, dir: string) {
    forall r :: r in after ==> exists p :: p in before && Home(after, p, dir) == r
  }

  ghost predicate Conserves(before: Disk, after: Disk, dir: string) {
    Kept(before, after, dir) && Apart(before, after, dir) && NothingElse(before, after, dir)
  }

  /** A file that can be moved to a free name of a directory that was empty. */
  ghost predicate MovesOut(before: Disk, mid: Disk, file: string, dir: string) {
    && file in mid && file in before && Within(dir, BaseName(file)) !in mid
    && Empty(before, dir) && forall name :: file != Within(dir, name)
  }

  /** The home of an entry after one more rename. */
  lemma HomeMoves(before: Disk, mid: Disk, file: string, dir: string, p: string)
    requires MovesOut(before, mid, file, dir) && p in before && Home(mid, p, dir) in mid
    ensures var to := Within(dir, BaseName(file));
      Home(Rename(mid, file, to), p, dir) == if p == file then to else Home(mid, p, dir)
  {
    assert p != Within(dir, BaseName(file));
  }

  lemma MoveKeeps(before: Disk, mid: Disk, file: string, dir: string)
    requires MovesOut(before, mid, file, dir) && Kept(before, mid, dir) && Apart(before, mid, dir)
    ensures Kept(before, Rename(mid, file, Within(dir, BaseName(file))), dir)
  {
    var to := Within(dir, BaseName(file));
    var after := Rename(mid, file, to);
    assert Home(mid, file, dir) == file;
    forall p | p in before ensures Home(after, p, dir) in after && after[Home(after, p, dir)] == before[p] {
      HomeMoves(before, mid, file, dir, p);
      if p != file { assert Home(mid, p, dir) != Home(mid, file, dir); }
    }
  }

  lemma MoveKeepsApart(before: Disk, mid: Disk, file: string, dir: string)
    requires MovesOut(before, mid, file, dir) && Kept(before, mid, dir) && Apart(before, mid, dir)
    ensures Apart(before, Rename(mid, file, Within(dir, BaseName(file))), dir)
  {
    var to := Within(dir, BaseName(file));
    var after := Rename(mid, file, to);
    forall p, q | p in before && q in before && p != q ensures Home(after, p, dir) != Home(after, q, dir) {
      HomeMoves(before, mid, file, dir, p);
      HomeMoves(before, mid, file, dir, q);
      assert Home(mid, p, dir) != Home(mid, q, dir);
    }
  }

  lemma MoveAddsNothing(before: Disk, mid: Disk, file: string, dir: string)
    requires MovesOut(before, mid, file, dir) && Kept(before, mid, dir) && NothingElse(before, mid, dir)
    ensures NothingElse(before, Rename(mid, file, Within(dir, BaseName(file))), dir)
  {
    var to := Within(dir, BaseName(file));
    var after := Rename(mid, file, to);
    forall r | r in after ensures exists p :: p in before && Home(after, p, dir) == r {
      var p := file;
      if r != to { p :| p in before && Home(mid, p, dir) == r; }
      HomeMoves(before, mid, file, dir, p);
      assert Home(after, p, dir) == r;
    }
  }

  lemma OneMoveConserves(before: Disk, mid: Disk, file: string, dir: string)
    requires MovesOut(before, mid, file, dir) && Conserves(before, mid, dir)
    ensures Conserves(before, Rename(mid, file, Within(dir, BaseName(file))), dir)
  {
    MoveKeeps(before, mid, file, dir);
    MoveKeepsApart(before, mid, file, dir);
    MoveAddsNothing(before, mid, file, dir);
  }

  lemma NothingMoved(fs: Disk, dir: string)
    ensures Conserves(fs, fs, dir)
  {
    forall r | r in fs ensures exists p :: p in fs && Home(fs, p, dir) == r { assert Home(fs, r, dir) == r; }
  }

  /** A file outside the directory that exists midway existed at the start. */
  lemma {:induction false} OutsideOnlyShrinks(fs: Disk, files: seq<string>, dir: string, permitted: seq<bool>, p: string)
    requires |permitted| == |files|
    requires p in MoveAll(fs, files, dir, permitted) && forall name :: p != Within(dir, name)
    ensures p in fs
  {
    if files != [] {
      var n := |files| - 1;
      assert p != Within(dir, BaseName(files[n]));
      OutsideOnlyShrinks(fs, files[..n], dir, permitted[..n], p);
    }
  }

  /** With no name moved twice, whichever renames fail, every entry is found exactly
      once afterwards, with its content: in its old place or under its base name in
      the new directory - and nothing else is found. */
  lemma {:induction false} MoveConserves(fs: Disk, files: seq<string>, dir: string, permitted: seq<bool>)
    requires |permitted| == |files| && FreshFor(fs, files, dir)
    requires NoDup(MovedNames(fs, files, dir, permitted))
    ensures Conserves(fs, MoveAll(fs, files, dir, permitted), dir)
  {
    if files == [] {
      NothingMoved(fs, dir);
    } else {
      var n := |files| - 1;
      var before := MoveAll(fs, files[..n], dir, permitted[..n]);
      var names, b := MovedNames(fs, files[..n], dir, permitted[..n]), BaseName(files[n]);
      NoDupPrefix(names, if Moves(before, files[n], dir, permitted[n]) then [b] else []);
      MoveConserves(fs, files[..n], dir, permitted[..n]);
      HoldsMovedNames(fs, files[..n], dir, permitted[..n]);
      if Moves(before, files[n], dir, permitted[n]) {
        assert (names + [b])[|names|] == b;
        OutsideOnlyShrinks(fs, files[..n], dir, permitted[..n], files[n]);
        OneMoveConserves(fs, before, files[n], dir);
      }
    }
  }

  lemma NoDupPrefix(names: seq<string>, more: seq<string>)
    requires NoDup(names + more)
    ensures NoDup(names)
    ensures more != [] ==> more[0] !in names
  {
    forall i, j | 0 <= i < j < |names| ensures names[i] != names[j] {
      assert (names + more)[i] != (names + more)[j];
    }
    if more != [] {
      forall i | 0 <= i < |names| ensures names[i] != more[0] {
        assert (names + more)[i] != (names + more)[|names|];
      }
    }
  }

  // ---------------------------------------- what a caller can see before the call

  lemma {:induction false} BaseNameHasNoSlash(path: string)
    ensures '/' !in BaseName(path)
  {
    if path != "" && path[|path| - 1] != '/' { BaseNameHasNoSlash(path[..|path| - 1]); }
  }

  /** The base name is what follows the last slash, or everything when there is none. */
  lemma {:induction false} BaseNameReads(path: string) returns (front: string)
    ensures path == front + BaseName(path) && '/' !in BaseName(path)
    ensures front == "" || front[|front| - 1] == '/'
  {
    BaseNameHasNoSlash(path);
    if path == "" || path[|path| - 1] == '/' {
      front := path;
    } else {
      front := BaseNameReads(path[..|path| - 1]);
      assert path == path[..|path| - 1] + [path[|path| - 1]];
    }
  }

  lemma {:induction false} BaseNameInside(dir: string, name: string)
    requires '/' !in name
    ensures BaseName(Within(dir, name)) == name
  {
    var path := Within(dir, name);
    if name != "" {
      var n := |name| - 1;
      assert name[n] in name && path[|path| - 1] == name[n];
      assert path[..|path| - 1] == Within(dir, name[..n]);
      forall c | c in name[..n] ensures c != '/' { assert c in name; }
      BaseNameInside(dir, name[..n]);
    }
  }

  /** A listed file of the disk. */
  ghost predicate IsListed(fs: Disk, files: seq<string>, p: string) {
    exists i: nat :: Listed(fs, files, i) && files[i] == p
  }

  lemma ListedLater(fs: Disk, files: seq<string>, n: nat, m: nat, p: string)
    requires n <= m <= |files| && IsListed(fs, files[..n], p)
    ensures IsListed(fs, files[..m], p)
  {
    var i: nat :| Listed(fs, files[..n], i) && files[..n][i] == p;
    assert Listed(fs, files[..m], i) && files[..m][i] == p;
  }

  /** Halfway through the list: what is gone from its place is a listed file. */
  ghost predicate Progress(fs: Disk, mid: Disk, files: seq<string>, dir: string) {
    Conserves(fs, mid, dir) && forall p :: p in fs && p !in mid ==> IsListed(fs, files, p)
  }

  /** A file found in the new directory is already where it would be moved to. */
  lemma AlreadyThere(fs: Disk, mid: Disk, dir: string, name: string)
    requires Empty(fs, dir) && Conserves(fs, mid, dir) && Within(dir, name) in mid
    ensures BaseName(Within(dir, name)) == name
  {
    var p :| p in fs && Home(mid, p, dir) == Within(dir, name);
    assert p != Within(dir, name);
    WithinInjective(dir, name, BaseName(p));
    BaseNameHasNoSlash(p);
    BaseNameInside(dir, name);
  }

  /** Only another file of that name can have taken the name. */
  lemma NameTaken(fs: Disk, mid: Disk, files: seq<string>, dir: string, n: nat)
    requires n < |files| && Empty(fs, dir) && Progress(fs, mid, files[..n], dir)
    requires Listed(fs, files, n) && files[n] in mid
    ensures Within(dir, BaseName(files[n])) in mid ==> !NamesDiffer(fs, files)
  {
    var to := Within(dir, BaseName(files[n]));
    if to in mid {
      var p :| p in fs && Home(mid, p, dir) == to;
      assert p != to;
      WithinInjective(dir, BaseName(files[n]), BaseName(p));
      ListedLater(fs, files, n, |files|, p);
      assert files[..|files|] == files;
    }
  }

  /** One more file of the list is moved: everything is still somewhere ... */
  lemma StepConserves(fs: Disk, mid: Disk, files: seq<string>, dir: string, n: nat)
    requires n < |files| && Empty(fs, dir) && Progress(fs, mid, files[..n], dir) && NamesDiffer(fs, files)
    requires Moves(mid, files[n], dir, true)
    ensures Conserves(fs, Rename(mid, files[n], Within(dir, BaseName(files[n]))), dir)
  {
    var f := files[n];
    if name :| f == Within(dir, name) {
      AlreadyThere(fs, mid, dir, name);
      assert Rename(mid, f, f) == mid;
    } else {
      StillAtHome(fs, mid, dir, f);
      assert Listed(fs, files, n);
      NameTaken(fs, mid, files, dir, n);
      OneMoveConserves(fs, mid, f, dir);
    }
  }

  /** A file found outside the directory has been there from the start. */
  lemma StillAtHome(fs: Disk, mid: Disk, dir: string, f: string)
    requires Kept(fs, mid, dir) && NothingElse(fs, mid, dir) && f in mid && forall name :: f != Within(dir, name)
    ensures f in fs && mid[f] == fs[f]
  {
    var p :| p in fs && Home(mid, p, dir) == f;
    assert p == f;
  }

  /** ... and what has left its place is a listed file. */
  lemma StepListed(fs: Disk, mid: Disk, files: seq<string>, dir: string, n: nat, p: string)
    requires n < |files| && Empty(fs, dir) && Progress(fs, mid, files[..n], dir)
    requires Moves(mid, files[n], dir, true)
    requires p in fs && p !in Rename(mid, files[n], Within(dir, BaseName(files[n])))
    ensures IsListed(fs, files[..n + 1], p)
  {
    if p in mid {
      assert p == files[n] && Home(mid, p, dir) == p;
      assert Listed(fs, files[..n + 1], n);
    } else {
      ListedLater(fs, files, n, n + 1, p);
    }
  }

  lemma MoveAllNext(fs: Disk, files: seq<string>, dir: string, permitted: seq<bool>, n: nat)
    requires |permitted| == |files| && n < |files|
    ensures MoveAll(fs, files[..n + 1], dir, permitted[..n + 1]) ==
      MoveOne(MoveAll(fs, files[..n], dir, permitted[..n]), files[n], dir, permitted[n])
  {
    assert files[..n + 1][..n] == files[..n] && permitted[..n + 1][..n] == permitted[..n];
  }

  lemma ProgressStep(fs: Disk, mid: Disk, files: seq<string>, dir: string, n: nat, permitted: bool)
    requires n < |files| && Empty(fs, dir) && Progress(fs, mid, files[..n], dir) && NamesDiffer(fs, files)
    ensures Progress(fs, MoveOne(mid, files[n], dir, permitted), files[..n + 1], dir)
  {
    var after := MoveOne(mid, files[n], dir, permitted);
    if Moves(mid, files[n], dir, permitted) { StepConserves(fs, mid, files, dir, n); }
    forall p | p in fs && p !in after ensures IsListed(fs, files[..n + 1], p) {
      if Moves(mid, files[n], dir, permitted) {
        StepListed(fs, mid, files, dir, n, p);
      } else {
        ListedLater(fs, files, n, n + 1, p);
      }
    }
  }

  lemma {:induction false} AllProgress(fs: Disk, files: seq<string>, dir: string, permitted: seq<bool>, n: nat)
    requires Empty(fs, dir) && NamesDiffer(fs, files) && |permitted| == |files| && n <= |files|
    ensures Progress(fs, MoveAll(fs, files[..n], dir, permitted[..n]), files[..n], dir)
    decreases n
  {
    if n == 0 {
      NothingMoved(fs, dir);
    } else {
      AllProgress(fs, files, dir, permitted, n - 1);
      MoveAllNext(fs, files, dir, permitted, n - 1);
      ProgressStep(fs, MoveAll(fs, files[..n - 1], dir, permitted[..n - 1]), files, dir, n - 1, permitted[n - 1]);
    }
  }

  lemma DifferentNamesConserve(fs: Disk, files: seq<string>, dir: string, permitted: seq<bool>)
    requires Empty(fs, dir) && NamesDiffer(fs, files) && |permitted| == |files|
    ensures Conserves(fs, MoveAll(fs, files, dir, permitted), dir)
  {
    AllProgress(fs, files, dir, permitted, |files|);
    assert files[..|files|] == files && permitted[..|files|] == permitted;
  }

  /** Permission for two of the renames only. */
  function OnlyTwo(n: nat, i: nat, j: nat): seq<bool> { seq(n, k => k == i || k == j) }

  /** Two different files with one name, and only these may be moved: step by step. */
  lemma {:induction false} TwoMoves(fs: Disk, files: seq<string>, dir: string, i: nat, j: nat, n: nat)
    requires Empty(fs, dir) && i < j < |files| && n <= |files|
    requires Listed(fs, files, i) && Listed(fs, files, j) && files[i] != files[j] && BaseName(files[i]) == BaseName(files[j])
    ensures var to := Within(dir, BaseName(files[i]));
      MoveAll(fs, files[..n], dir, OnlyTwo(|files|, i, j)[..n]) ==
        if n <= i then fs else if n <= j then Rename(fs, files[i], to) else Rename(Rename(fs, files[i], to), files[j], to)
    decreases n
  {
    if n > 0 {
      var k, only := n - 1, OnlyTwo(|files|, i, j);
      TwoMoves(fs, files, dir, i, j, k);
      assert files[..n][..k] == files[..k] && only[..n][..k] == only[..k];
      assert files[..n][k] == files[k] && only[..n][k] == (k == i || k == j);
    }
  }

  /** Two different files with one name: when both may be moved, one is lost. */
  lemma SharedNameLoses(fs: Disk, files: seq<string>, dir: string) returns (permitted: seq<bool>)
    requires Empty(fs, dir) && !NamesDiffer(fs, files)
    ensures |permitted| == |files| && !Conserves(fs, MoveAll(fs, files, dir, permitted), dir)
  {
    var i: nat, j: nat :| i < j && Listed(fs, files, i) && Listed(fs, files, j)
      && BaseName(files[i]) == BaseName(files[j]) && files[i] != files[j];
    permitted := OnlyTwo(|files|, i, j);
    TwoMoves(fs, files, dir, i, j, |files|);
    assert files[..|files|] == files && permitted[..|files|] == permitted;
    OverwritingLoses(fs, files[i], files[j], dir);
  }

  /** Exactly when nothing can be lost, whichever renames fail: when no two different
      files on the list share a base name. */
  lemma ConservesIff(fs: Disk, files: seq<string>, dir: string)
    requires Empty(fs, dir)
    ensures (forall permitted: seq<bool> :: |permitted| == |files| ==> Conserves(fs, MoveAll(fs, files, dir, permitted), dir))
      <==> NamesDiffer(fs, files)
  {
    if NamesDiffer(fs, files) {
      forall permitted: seq<bool> | |permitted| == |files| ensures Conserves(fs, MoveAll(fs, files, dir, permitted), dir) {
        DifferentNamesConserve(fs, files, dir, permitted);
      }
    } else {
      var permitted := SharedNameLoses(fs, files, dir);
    }
  }

  lemma OverwritingLoses(fs: Disk, f: string, g: string, dir: string)
    requires Empty(fs, dir) && f in fs && g in fs && f != g && BaseName(f) == BaseName(g)
    ensures var to := Within(dir, BaseName(f)); !Conserves(fs, Rename(Rename(fs, f, to), g, to), dir)
  {
    var to := Within(dir, BaseName(f));
    var after := Rename(Rename(fs, f, to), g, to);
    assert f != to && g != to;
    assert Home(after, f, dir) == to == Home(after, g, dir);
  }

  /** A call that loses a file: two files of one name from different directories. */
  lemma LosingCall(fs: Disk, dir: string, files: seq<string>)
    requires fs == map["d" := Directory, "a/x" := File("one"), "b/x" := File("two")]
    requires dir == "d" && files == ["a/x", "b/x"]
    ensures MoveAll(fs, files, dir, [true, true]) == map["d" := Directory, "d/x" := File("two")]
  {
    var permitted := [true, true];
    assert files[..1] == ["a/x"] && permitted[..1] == [true];
    assert BaseName("a/x") == "x" && BaseName("b/x") == "x" by {
      BaseNameInside("a", "x");
      BaseNameInside("b", "x");
      assert Within("a", "x") == "a/x" && Within("b", "x") == "b/x";
    }
    assert Within("d", "x") == "d/x";
    var none := MoveAll(fs, ["a/x"][..0], dir, [true][..0]);
    assert none == fs && Moves(fs, "a/x", dir, true);
    var one := MoveAll(fs, ["a/x"], dir, [true]);
    assert one == Rename(fs, "a/x", "d/x");
    assert one == map["d" := Directory, "d/x" := File("one"), "b/x" := File("two")];
  }
}
