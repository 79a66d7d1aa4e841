/**
 * Vfs::Dir_file_system: a directory of the virtual file system that
 * stacks the file systems configured inside it. A request for a path is
 * first stripped of the directory's own name; the remainder goes to the
 * children in the order they were configured, and the first child that
 * knows the path answers. Directory listings number the children's
 * entries one after the other.
 */
module Vfs {
  import opened Wrappers

  /*
   * The results the directory hands on or makes itself. Any other error a
   * child reports is carried as a code.
   */
  datatype StatResult = StatOk | StatErrNoEntry | StatErrOther(code: nat)
  datatype DirentResult = DirentOk | DirentErrInvalidPath | DirentErrOther(code: nat)
  datatype UnlinkResult = UnlinkOk | UnlinkErrNoEntry | UnlinkErrNoPerm | UnlinkErrOther(code: nat)
  datatype RenameResult = RenameOk | RenameErrNoEntry | RenameErrCrossFs | RenameErrNoPerm | RenameErrOther(code: nat)
  datatype SymlinkResult = SymlinkOk | SymlinkErrNoEntry | SymlinkErrExists | SymlinkErrOther(code: nat)
  datatype MkdirResult = MkdirOk | MkdirErrNoEntry | MkdirErrExists | MkdirErrOther(code: nat)
  datatype WriteResult = WriteOk | WriteErrInvalid | WriteErrOther(code: nat)
  datatype ReadResult = ReadOk | ReadErrInvalid | ReadErrOther(code: nat)
  datatype FtruncateResult = FtruncateOk | FtruncateErrNoPerm | FtruncateErrOther(code: nat)

  /** The file status the directory reports or a child fills in. */
  datatype Stat = Stat(size: nat, mode: nat, uid: nat, gid: nat, inode: nat, device: nat)

  /** The directory bit of a mode, 0040000 in octal. */
  const STAT_MODE_DIRECTORY: nat := 0x4000
  /** The permissions the directory reports, 0755 in octal. */
  const DIR_PERMISSIONS: nat := 0x1ED

  datatype DirentType =
    | DirentTypeFile | DirentTypeDirectory | DirentTypeFifo | DirentTypeChardev
    | DirentTypeBlockdev | DirentTypeSymlink | DirentTypeEnd

  datatype Dirent = Dirent(fileno: int, dtype: DirentType, name: string)

  /**
   * A child file system, by the answers it gives. 'stat' and 'dirent'
   * receive the record the caller passed and give it back filled in.
   */
  datatype FileSystem = FileSystem(
    stat: (string, Stat) -> (StatResult, Stat),
    numDirent: string -> nat,
    dirent: (string, int, Dirent) -> (DirentResult, Dirent),
    unlink: string -> UnlinkResult,
    rename: (string, string) -> RenameResult,
    symlink: (string, string) -> SymlinkResult,
    mkdir: (string, nat) -> MkdirResult)

  /*
   * Path stripping.
   */

  /** 'path' without its leading slash, if it has one. */
  function SkipSlash(path: string): (p: string)
    ensures path == p || path == "/" + p
  {
    if |path| > 0 && path[0] == '/' then path[1..] else path
  }

  /**
   * _sub_path: the part of 'path' below the directory 'name'. The root
   * directory (empty name) strips nothing. Any other directory drops one
   * leading slash and then wants its name as the path's first element:
   * the name, followed by the end of the path or a slash. There is no
   * remainder (null) when it does not find it.
   */
  function SubPath(name: string, path: string): (r: Option<string>)
    ensures name == "" ==> r == Some(path)
    ensures name != "" && r.Some? ==> r.value == "" || r.value[0] == '/'
    ensures r.Some? ==> |r.value| <= |path| && path[|path| - |r.value|..] == r.value
  {
    if name == "" then Some(path)
    else
      var p := SkipSlash(path);
      if |p| < |name| || p[..|name|] != name then None
      else
        var rest := p[|name|..];
        if rest != "" && rest[0] != '/' then None
        else Some(rest)
  }

  /**
   * For a directory whose name has no leading slash, the remainder is 'r'
   * exactly when the path is the name followed by 'r', with or without a
   * leading slash, and 'r' is empty or starts a new path element.
   */
  lemma SubPathMatches(name: string, path: string, r: string)
    requires name != "" && name[0] != '/'
    ensures SubPath(name, path) == Some(r) <==>
      (path == name + r || path == "/" + name + r) && (r == "" || r[0] == '/')
  {
    if path == name + r || path == "/" + name + r {
      assert SkipSlash(path) == name + r;
      assert (name + r)[..|name|] == name && (name + r)[|name|..] == r;
    }
    if SubPath(name, path) == Some(r) {
      var p := SkipSlash(path);
      assert p == p[..|name|] + p[|name|..];
    }
  }

  /** Stripping undoes prefixing: the remainder of "/" + name + r is r. */
  lemma SubPathOfJoin(name: string, r: string)
    requires name != "" && (r == "" || r[0] == '/')
    ensures SubPath(name, "/" + name + r) == Some(r)
  {
    var path := "/" + name + r;
    assert SkipSlash(path) == name + r;
    assert (name + r)[..|name|] == name && (name + r)[|name|..] == r;
  }

  /** Whatever the name, a remainder is what follows the name, with or without a leading slash. */
  lemma SubPathShape(name: string, path: string)
    requires name != ""
    ensures SubPath(name, path).Some? ==>
      path == name + SubPath(name, path).value || path == "/" + name + SubPath(name, path).value
  {
    var p := SkipSlash(path);
    if |p| >= |name| {
      assert p == p[..|name|] + p[|name|..];
    }
  }

  /*
   * Dispatch to the children.
   */

  /** The position of the first answer other than 'noEntry'; |answers| when there is none. */
  function FirstOther<R(==)>(answers: seq<R>, noEntry: R): (k: nat)
    ensures k <= |answers|
    ensures k < |answers| ==> answers[k] != noEntry
    ensures forall j | 0 <= j < k :: answers[j] == noEntry
  {
    if answers == [] then 0
    else if answers[0] != noEntry then 0
    else 1 + FirstOther(answers[1..], noEntry)
  }

  /**
   * The answer of a chain of children: the first answer other than
   * 'noEntry', and 'noEntry' when every child answers so.
   */
  function Decide<R(==)>(answers: seq<R>, noEntry: R): R {
    var k := FirstOther(answers, noEntry);
    if k < |answers| then answers[k] else noEntry
  }

  /**
   * The chain answers 'noEntry' exactly when every child does; otherwise it
   * gives one child's answer, and every earlier child answered 'noEntry'.
   */
  lemma DecideSpec<R>(answers: seq<R>, noEntry: R)
    ensures Decide(answers, noEntry) == noEntry <==> forall j | 0 <= j < |answers| :: answers[j] == noEntry
    ensures Decide(answers, noEntry) != noEntry ==>
      exists k | 0 <= k < |answers| :: answers[k] == Decide(answers, noEntry)
        && forall j | 0 <= j < k :: answers[j] == noEntry
  {
    var k := FirstOther(answers, noEntry);
    if k < |answers| {
      assert answers[k] != noEntry;
    }
  }

  /** How many children the chain asks: up to and including the one that decides. */
  function Asked<R(==)>(answers: seq<R>, noEntry: R): (n: nat)
    ensures n <= |answers|
    ensures n < |answers| ==> 0 < n && answers[n - 1] != noEntry
    ensures forall j | 0 <= j < n - 1 :: answers[j] == noEntry
  {
    var k := FirstOther(answers, noEntry);
    if k < |answers| then k + 1 else |answers|
  }

  function UnlinkAnswers(cs: seq<FileSystem>, p: string): (a: seq<UnlinkResult>)
    ensures |a| == |cs| && forall i | 0 <= i < |cs| :: a[i] == cs[i].unlink(p)
  {
    seq(|cs|, i requires 0 <= i < |cs| => cs[i].unlink(p))
  }

  function RenameAnswers(cs: seq<FileSystem>, p: string, q: string): (a: seq<RenameResult>)
    ensures |a| == |cs| && forall i | 0 <= i < |cs| :: a[i] == cs[i].rename(p, q)
  {
    seq(|cs|, i requires 0 <= i < |cs| => cs[i].rename(p, q))
  }

  function SymlinkAnswers(cs: seq<FileSystem>, from: string, p: string): (a: seq<SymlinkResult>)
    ensures |a| == |cs| && forall i | 0 <= i < |cs| :: a[i] == cs[i].symlink(from, p)
  {
    seq(|cs|, i requires 0 <= i < |cs| => cs[i].symlink(from, p))
  }

  function MkdirAnswers(cs: seq<FileSystem>, p: string, mode: nat): (a: seq<MkdirResult>)
    ensures |a| == |cs| && forall i | 0 <= i < |cs| :: a[i] == cs[i].mkdir(p, mode)
  {
    seq(|cs|, i requires 0 <= i < |cs| => cs[i].mkdir(p, mode))
  }

  /** The status of the directory itself: size 0, a directory with mode 0755, owned by 0:0. */
  function DirStat(out: Stat): (s: Stat)
    ensures s.size == 0 && s.mode == STAT_MODE_DIRECTORY + DIR_PERMISSIONS && s.uid == 0 && s.gid == 0
    ensures s.inode == out.inode && s.device == out.device
  {
    out.(size := 0, mode := STAT_MODE_DIRECTORY + DIR_PERMISSIONS, uid := 0, gid := 0)
  }

  /**
   * The stat chain: each child fills in the record the one before it left;
   * the first answer other than STAT_ERR_NO_ENTRY decides.
   */
  function StatFrom(cs: seq<FileSystem>, p: string, out: Stat): (StatResult, Stat) {
    if cs == [] then (StatErrNoEntry, out)
    else
      var (err, out') := cs[0].stat(p, out);
      if err != StatErrNoEntry then (err, out') else StatFrom(cs[1..], p, out')
  }

  /**
   * Asking one more child continues the chain only while every child so
   * far answered STAT_ERR_NO_ENTRY, with the record they left.
   */
  lemma {:induction false} StatFromAppend(cs: seq<FileSystem>, c: FileSystem, p: string, out: Stat)
    ensures StatFrom(cs + [c], p, out) ==
      if StatFrom(cs, p, out).0 != StatErrNoEntry then StatFrom(cs, p, out) else c.stat(p, StatFrom(cs, p, out).1)
  {
    if cs == [] {
      assert ([] + [c])[1..] == [];
    } else {
      assert (cs + [c])[1..] == cs[1..] + [c];
      var (err, out') := cs[0].stat(p, out);
      if err == StatErrNoEntry {
        StatFromAppend(cs[1..], c, p, out');
      }
    }
  }

  /** stat of the directory 'name' with children 'cs'. */
  function StatOf(name: string, cs: seq<FileSystem>, path: string, out: Stat): (StatResult, Stat) {
    match SubPath(name, path)
    case None => (StatErrNoEntry, out)
    case Some(p) =>
      if p == "" || p == "/" then (StatOk, DirStat(out))
      else StatFrom(cs, p, out)
  }

  /**
   * stat decides on STAT_ERR_NO_ENTRY only when every child answered so,
   * each on the record the children before it left; any other answer is
   * that of the first child 'k' to answer otherwise, on the record the
   * children before it, all answering STAT_ERR_NO_ENTRY, left.
   */
  lemma {:induction false} StatFromSpec(cs: seq<FileSystem>, p: string, out: Stat)
    ensures StatFrom(cs, p, out).0 != StatErrNoEntry ==>
      exists k, o | 0 <= k < |cs| ::
        && StatFrom(cs[..k], p, out) == (StatErrNoEntry, o)
        && cs[k].stat(p, o).0 != StatErrNoEntry
        && StatFrom(cs, p, out) == cs[k].stat(p, o)
    ensures StatFrom(cs, p, out).0 == StatErrNoEntry ==>
      forall k | 0 <= k < |cs| ::
        StatFrom(cs[..k], p, out).0 == StatErrNoEntry && cs[k].stat(p, StatFrom(cs[..k], p, out).1).0 == StatErrNoEntry
    ensures cs == [] ==> StatFrom(cs, p, out) == (StatErrNoEntry, out)
  {
    if cs != [] {
      var (err, out') := cs[0].stat(p, out);
      assert cs[..0] == [];
      if err == StatErrNoEntry {
        StatFromSpec(cs[1..], p, out');
        forall k | 1 <= k <= |cs|
          ensures StatFrom(cs[..k], p, out) == StatFrom(cs[1..][..k - 1], p, out')
        {
          assert cs[..k][0] == cs[0] && cs[..k][1..] == cs[1..][..k - 1];
        }
        if StatFrom(cs, p, out).0 != StatErrNoEntry {
          var k, o :| 0 <= k < |cs[1..]| && StatFrom(cs[1..][..k], p, out') == (StatErrNoEntry, o)
            && cs[1..][k].stat(p, o).0 != StatErrNoEntry && StatFrom(cs[1..], p, out') == cs[1..][k].stat(p, o);
          assert StatFrom(cs[..k + 1], p, out) == (StatErrNoEntry, o);
        } else {
          forall k | 0 <= k < |cs|
            ensures StatFrom(cs[..k], p, out).0 == StatErrNoEntry
            ensures cs[k].stat(p, StatFrom(cs[..k], p, out).1).0 == StatErrNoEntry
          {
            if k > 0 {
              assert cs[k] == cs[1..][k - 1];
            }
          }
        }
      } else {
        assert StatFrom(cs[..0], p, out) == (StatErrNoEntry, out);
      }
    }
  }

  /*
   * Directory listings.
   */

  /** The entry counts of the children for 'p'. */
  function Counts(cs: seq<FileSystem>, p: string): (c: seq<nat>)
    ensures |c| == |cs| && forall i | 0 <= i < |cs| :: c[i] == cs[i].numDirent(p)
  {
    seq<nat>(|cs|, i requires 0 <= i < |cs| => cs[i].numDirent(p))
  }

  function Sum(s: seq<nat>): nat {
    if s == [] then 0 else s[0] + Sum(s[1..])
  }

  lemma {:induction false} SumAppend(s: seq<nat>, x: nat)
    ensures Sum(s + [x]) == Sum(s) + x
  {
    if s == [] {
      assert [x][1..] == [];
    } else {
      assert (s + [x])[1..] == s[1..] + [x];
      SumAppend(s[1..], x);
    }
  }

  /** A child's entry handed on: its number moves up by 'base'. */
  function Rebased(r: (DirentResult, Dirent), base: int): (DirentResult, Dirent) {
    (r.0, r.1.(fileno := r.1.fileno + base))
  }

  /** The end-of-directory entry: only the type changes. */
  function EndOf(out: Dirent): Dirent {
    out.(dtype := DirentTypeEnd)
  }

  /**
   * _dirent_of_file_systems from the children 'cs' on, whose entries are
   * numbered from 'base': the first child whose entries reach past
   * 'index' is asked with the index counted from its first entry.
   */
  function DirentFrom(cs: seq<FileSystem>, p: string, index: int, base: int, out: Dirent): (DirentResult, Dirent) {
    if cs == [] then (DirentOk, EndOf(out))
    else
      var n := cs[0].numDirent(p);
      if index - base < n then Rebased(cs[0].dirent(p, index - base, out), base)
      else DirentFrom(cs[1..], p, index, base + n, out)
  }

  /** An index past all the children's entries reads as the end of the directory. */
  lemma {:induction false} DirentPastEnd(cs: seq<FileSystem>, p: string, index: int, base: int, out: Dirent)
    requires index - base >= Sum(Counts(cs, p))
    ensures DirentFrom(cs, p, index, base, out) == (DirentOk, EndOf(out))
  {
    if cs != [] {
      assert Counts(cs, p)[1..] == Counts(cs[1..], p);
      DirentPastEnd(cs[1..], p, index, base + cs[0].numDirent(p), out);
    }
  }

  /**
   * An index within the children's entries is answered by the child 'k'
   * whose entries cover it, asked with an index in 0 .. its count - 1, and
   * its answer's number moves up by the entries of the children before it.
   */
  lemma {:induction false} DirentPicks(cs: seq<FileSystem>, p: string, index: int, base: int, out: Dirent)
    returns (k: nat)
    requires 0 <= index - base < Sum(Counts(cs, p))
    ensures k < |cs|
    ensures var before := Sum(Counts(cs[..k], p));
      && 0 <= index - base - before < cs[k].numDirent(p)
      && DirentFrom(cs, p, index, base, out) == Rebased(cs[k].dirent(p, index - base - before, out), base + before)
  {
    assert Counts(cs, p)[1..] == Counts(cs[1..], p);
    var n := cs[0].numDirent(p);
    if index - base < n {
      k := 0;
      assert cs[..0] == [];
    } else {
      var k' := DirentPicks(cs[1..], p, index, base + n, out);
      k := k' + 1;
      assert Counts(cs[..k], p) == [n] + Counts(cs[1..][..k'], p) by {
        assert cs[..k] == [cs[0]] + cs[1..][..k'];
      }
      assert Sum(Counts(cs[..k], p)) == n + Sum(Counts(cs[1..][..k'], p)) by {
        assert ([n] + Counts(cs[1..][..k'], p))[1..] == Counts(cs[1..][..k'], p);
      }
    }
  }

  /** The one entry of a directory listed as "/": itself, numbered 1, then the end. */
  function ThisDirEntry(name: string, index: int, out: Dirent): (d: Dirent)
    ensures index == 0 ==> d == Dirent(1, DirentTypeDirectory, name)
    ensures index != 0 ==> d == EndOf(out)
  {
    if index == 0 then out.(name := name, dtype := DirentTypeDirectory, fileno := 1)
    else EndOf(out)
  }

  /** dirent of the directory 'name' with children 'cs'. */
  function DirentOf(name: string, cs: seq<FileSystem>, path: string, index: int, out: Dirent): (DirentResult, Dirent) {
    if name == "" then DirentFrom(cs, path, index, 0, out)
    else if path == "/" then (DirentOk, ThisDirEntry(name, index, out))
    else match SubPath(name, path)
      case None => (DirentErrInvalidPath, out)
      case Some(p) => DirentFrom(cs, p, index, 0, out)
  }

  /** num_dirent of the directory 'name' with children 'cs'. */
  function NumDirentOf(name: string, cs: seq<FileSystem>, path: string): nat {
    if name == "" then Sum(Counts(cs, path))
    else if path == "/" then 1
    else match SubPath(name, path)
      case None => 0
      case Some(p) => Sum(Counts(cs, p))
  }

  /**
   * Listing and count agree: for any path the directory can list, a
   * non-negative index at or past num_dirent reads as the end. One below
   * it is the directory's own entry when a named directory is listed as
   * "/"; otherwise it is the answer of the child 'k' whose entries cover
   * it, for the remainder of the path, asked with the index counted from
   * that child's first entry and numbered on from the entries before it.
   */
  lemma ListingAgrees(name: string, cs: seq<FileSystem>, path: string, index: int, out: Dirent)
    requires 0 <= index
    requires name == "" || path == "/" || SubPath(name, path).Some?
    ensures index >= NumDirentOf(name, cs, path) ==> DirentOf(name, cs, path, index, out) == (DirentOk, EndOf(out))
    ensures index < NumDirentOf(name, cs, path) ==>
      if name != "" && path == "/" then
        DirentOf(name, cs, path, index, out) == (DirentOk, Dirent(1, DirentTypeDirectory, name))
      else
        var p := if name == "" then path else SubPath(name, path).value;
        exists k | 0 <= k < |cs| ::
          && 0 <= index - Sum(Counts(cs[..k], p)) < cs[k].numDirent(p)
          && DirentOf(name, cs, path, index, out) ==
             Rebased(cs[k].dirent(p, index - Sum(Counts(cs[..k], p)), out), Sum(Counts(cs[..k], p)))
  {
    var p := if name == "" || path == "/" then path else SubPath(name, path).value;
    if index >= NumDirentOf(name, cs, path) {
      if name == "" || path != "/" {
        DirentPastEnd(cs, p, index, 0, out);
      }
    } else if name == "" || path != "/" {
      var k := DirentPicks(cs, p, index, 0, out);
    }
  }

  /*
   * The directory.
   */

  class DirFileSystem {
    /** '_name': empty for the root of the file system. */
    const name: string
    /** The child file systems, in the order they were configured ('_first_file_system' and its 'next' links). */
    var children: seq<FileSystem>

    constructor (name: string)
      ensures this.name == name && children == []
    {
      this.name := name;
      children := [];
    }

    /** _append_file_system: the child goes last; the others stay, in order. */
    method AppendFileSystem(fs: FileSystem)
      modifies this
      ensures children == old(children) + [fs]
      ensures |children| == |old(children)| + 1 && children[|children| - 1] == fs
      ensures forall i | 0 <= i < |old(children)| :: children[i] == old(children)[i]
    {
      children := children + [fs];
    }

    /**
     * stat: the directory's own status for its own path (remainder "" or
     * "/"); otherwise the children are asked in order until one answers
     * other than STAT_ERR_NO_ENTRY. 'asked' counts the children asked:
     * the answer is that of the chain over the first 'asked' children, all
     * but the last of which answered STAT_ERR_NO_ENTRY, and fewer than all
     * are asked only when the last one asked answered otherwise.
     */
    method Stat(path: string, out: Stat) returns (r: StatResult, out': Stat, asked: nat)
      ensures (r, out') == StatOf(name, children, path, out)
      ensures asked <= |children|
      ensures 0 < asked < |children| ==> r != StatErrNoEntry
      ensures var sub := SubPath(name, path);
        if sub.None? || sub.value == "" || sub.value == "/" then asked == 0
        else
          && (r, out') == StatFrom(children[..asked], sub.value, out)
          && (asked > 0 ==> StatFrom(children[..asked - 1], sub.value, out).0 == StatErrNoEntry)
          && (asked < |children| ==> r != StatErrNoEntry)
    {
      asked := 0;
      var sub := SubPath(name, path);
      if sub.None? {
        return StatErrNoEntry, out, 0;
      }
      var p := sub.value;
      if p == "" || p == "/" {
        return StatOk, DirStat(out), 0;
      }
      out' := out;
      assert children[..0] == [];
      while asked < |children|
        invariant asked <= |children|
        invariant StatFrom(children, p, out) == StatFrom(children[asked..], p, out')
        invariant StatFrom(children[..asked], p, out) == (StatErrNoEntry, out')
        invariant asked > 0 ==> StatFrom(children[..asked - 1], p, out).0 == StatErrNoEntry
      {
        assert children[asked..][1..] == children[asked + 1..];
        assert children[..asked + 1] == children[..asked] + [children[asked]];
        StatFromAppend(children[..asked], children[asked], p, out);
        var (err, o) := children[asked].stat(p, out');
        out' := o;
        asked := asked + 1;
        if err != StatErrNoEntry {
          return err, out', asked;
        }
      }
      r := StatErrNoEntry;
      assert children[..asked] == children;
    }

    /**
     * _dirent_of_file_systems: walks the children, adding up their entry
     * counts, until the index falls within one child's entries; past all
     * entries the record reads as the end of the directory.
     */
    method DirentOfFileSystems(path: string, index: int, out: Dirent) returns (r: DirentResult, out': Dirent)
      ensures (r, out') == DirentFrom(children, path, index, 0, out)
    {
      var base := 0;
      var i := 0;
      while i < |children|
        invariant i <= |children|
        invariant DirentFrom(children, path, index, 0, out) == DirentFrom(children[i..], path, index, base, out)
      {
        assert children[i..][1..] == children[i + 1..];
        var n := children[i].numDirent(path);
        if index - base < n {
          var (err, o) := children[i].dirent(path, index - base, out);
          return err, o.(fileno := o.fileno + base);
        }
        base := base + n;
        i := i + 1;
      }
      r, out' := DirentOk, EndOf(out);
    }

    /** _dirent_of_this_dir_node. */
    method DirentOfThisDirNode(index: int, out: Dirent) returns (out': Dirent)
      ensures out' == ThisDirEntry(name, index, out)
      ensures index == 0 ==> out'.dtype == DirentTypeDirectory && out'.fileno == 1 && out'.name == name
      ensures index != 0 ==> out'.dtype == DirentTypeEnd
    {
      if index == 0 {
        out' := out.(name := name, dtype := DirentTypeDirectory, fileno := 1);
      } else {
        out' := out.(dtype := DirentTypeEnd);
      }
    }

    /**
     * dirent: the root lists its children's entries; any other directory
     * lists itself for "/", its children's entries for a path below it, and
     * refuses any other path with DIRENT_ERR_INVALID_PATH.
     */
    method Dirent(path: string, index: int, out: Dirent) returns (r: DirentResult, out': Dirent)
      ensures (r, out') == DirentOf(name, children, path, index, out)
    {
      if name == "" {
        r, out' := DirentOfFileSystems(path, index, out);
        return;
      }
      if path == "/" {
        out' := DirentOfThisDirNode(index, out);
        return DirentOk, out';
      }
      var sub := SubPath(name, path);
      if sub.None? {
        return DirentErrInvalidPath, out;
      }
      r, out' := DirentOfFileSystems(sub.value, index, out);
    }

    /** _sum_dirents_of_file_systems. */
    method SumDirents(path: string) returns (cnt: nat)
      ensures cnt == Sum(Counts(children, path))
    {
      cnt := 0;
      var i := 0;
      while i < |children|
        invariant i <= |children|
        invariant cnt == Sum(Counts(children[..i], path))
      {
        assert children[..i + 1] == children[..i] + [children[i]];
        assert Counts(children[..i + 1], path) == Counts(children[..i], path) + [children[i].numDirent(path)];
        SumAppend(Counts(children[..i], path), children[i].numDirent(path));
        cnt := cnt + children[i].numDirent(path);
        i := i + 1;
      }
      assert children[..i] == children;
    }

    /**
     * num_dirent: the root counts its children's entries; any other
     * directory has one entry (itself) under "/", its children's entries
     * for a path below it, and none for any other path.
     */
    method NumDirent(path: string) returns (n: nat)
      ensures n == NumDirentOf(name, children, path)
    {
      if name == "" {
        n := SumDirents(path);
        return;
      }
      if path == "/" {
        return 1;
      }
      var sub := SubPath(name, path);
      if sub.None? {
        return 0;
      }
      n := SumDirents(sub.value);
    }

    /**
     * unlink: UNLINK_ERR_NO_ENTRY outside the directory, UNLINK_ERR_NO_PERM
     * for the directory itself, else the first child answer other than
     * UNLINK_ERR_NO_ENTRY. 'asked' counts the children asked.
     */
    method Unlink(path: string) returns (r: UnlinkResult, asked: nat)
      ensures SubPath(name, path).None? ==> r == UnlinkErrNoEntry && asked == 0
      ensures SubPath(name, path) == Some("") ==> r == UnlinkErrNoPerm && asked == 0
      ensures SubPath(name, path).Some? && SubPath(name, path) != Some("") ==>
        var a := UnlinkAnswers(children, SubPath(name, path).value);
        r == Decide(a, UnlinkErrNoEntry) && asked == Asked(a, UnlinkErrNoEntry)
    {
      var sub := SubPath(name, path);
      if sub.None? {
        return UnlinkErrNoEntry, 0;
      }
      var p := sub.value;
      if p == "" {
        return UnlinkErrNoPerm, 0;
      }
      ghost var a := UnlinkAnswers(children, p);
      asked := 0;
      while asked < |children|
        invariant asked <= FirstOther(a, UnlinkErrNoEntry)
      {
        var err := children[asked].unlink(p);
        asked := asked + 1;
        if err != UnlinkErrNoEntry {
          return err, asked;
        }
      }
      r := UnlinkErrNoEntry;
    }

    /**
     * rename: RENAME_ERR_NO_ENTRY when the source lies outside the
     * directory, RENAME_ERR_NO_PERM when it is the directory itself,
     * RENAME_ERR_CROSS_FS when the destination lies outside, else the first
     * child answer other than RENAME_ERR_NO_ENTRY.
     */
    method Rename(fromPath: string, toPath: string) returns (r: RenameResult, asked: nat)
      ensures SubPath(name, fromPath).None? ==> r == RenameErrNoEntry && asked == 0
      ensures SubPath(name, fromPath) == Some("") ==> r == RenameErrNoPerm && asked == 0
      ensures SubPath(name, fromPath).Some? && SubPath(name, fromPath) != Some("") && SubPath(name, toPath).None? ==>
        r == RenameErrCrossFs && asked == 0
      ensures SubPath(name, fromPath).Some? && SubPath(name, fromPath) != Some("") && SubPath(name, toPath).Some? ==>
        var a := RenameAnswers(children, SubPath(name, fromPath).value, SubPath(name, toPath).value);
        r == Decide(a, RenameErrNoEntry) && asked == Asked(a, RenameErrNoEntry)
    {
      var from := SubPath(name, fromPath);
      if from.None? {
        return RenameErrNoEntry, 0;
      }
      var p := from.value;
      if p == "" {
        return RenameErrNoPerm, 0;
      }
      var to := SubPath(name, toPath);
      if to.None? {
        return RenameErrCrossFs, 0;
      }
      var q := to.value;
      ghost var a := RenameAnswers(children, p, q);
      asked := 0;
      while asked < |children|
        invariant asked <= FirstOther(a, RenameErrNoEntry)
      {
        var err := children[asked].rename(p, q);
        asked := asked + 1;
        if err != RenameErrNoEntry {
          return err, asked;
        }
      }
      r := RenameErrNoEntry;
    }

    /**
     * symlink: the link's own path 'to' is stripped; SYMLINK_ERR_NO_ENTRY
     * outside the directory, SYMLINK_ERR_EXISTS for the directory itself,
     * else the first child answer other than SYMLINK_ERR_NO_ENTRY. The
     * link's target 'from' is handed on unchanged.
     */
    method Symlink(from: string, to: string) returns (r: SymlinkResult, asked: nat)
      ensures SubPath(name, to).None? ==> r == SymlinkErrNoEntry && asked == 0
      ensures SubPath(name, to) == Some("") ==> r == SymlinkErrExists && asked == 0
      ensures SubPath(name, to).Some? && SubPath(name, to) != Some("") ==>
        var a := SymlinkAnswers(children, from, SubPath(name, to).value);
        r == Decide(a, SymlinkErrNoEntry) && asked == Asked(a, SymlinkErrNoEntry)
    {
      var sub := SubPath(name, to);
      if sub.None? {
        return SymlinkErrNoEntry, 0;
      }
      var p := sub.value;
      if p == "" {
        return SymlinkErrExists, 0;
      }
      ghost var a := SymlinkAnswers(children, from, p);
      asked := 0;
      while asked < |children|
        invariant asked <= FirstOther(a, SymlinkErrNoEntry)
      {
        var err := children[asked].symlink(from, p);
        asked := asked + 1;
        if err != SymlinkErrNoEntry {
          return err, asked;
        }
      }
      r := SymlinkErrNoEntry;
    }

    /**
     * mkdir: MKDIR_ERR_NO_ENTRY outside the directory, MKDIR_ERR_EXISTS for
     * the directory itself, else the first child answer other than
     * MKDIR_ERR_NO_ENTRY.
     */
    method Mkdir(path: string, mode: nat) returns (r: MkdirResult, asked: nat)
      ensures SubPath(name, path).None? ==> r == MkdirErrNoEntry && asked == 0
      ensures SubPath(name, path) == Some("") ==> r == MkdirErrExists && asked == 0
      ensures SubPath(name, path).Some? && SubPath(name, path) != Some("") ==>
        var a := MkdirAnswers(children, SubPath(name, path).value, mode);
        r == Decide(a, MkdirErrNoEntry) && asked == Asked(a, MkdirErrNoEntry)
    {
      var sub := SubPath(name, path);
      if sub.None? {
        return MkdirErrNoEntry, 0;
      }
      var p := sub.value;
      if p == "" {
        return MkdirErrExists, 0;
      }
      ghost var a := MkdirAnswers(children, p, mode);
      asked := 0;
      while asked < |children|
        invariant asked <= FirstOther(a, MkdirErrNoEntry)
      {
        var err := children[asked].mkdir(p, mode);
        asked := asked + 1;
        if err != MkdirErrNoEntry {
          return err, asked;
        }
      }
      r := MkdirErrNoEntry;
    }

    /**
     * write on the directory fails, whatever the handle and data. Nothing is
     * written: the source leaves the caller's out-count as it was, which the
     * model reports as 'written == 0'.
     */
    method Write(data: seq<char>) returns (r: WriteResult, written: nat)
      ensures r == WriteErrInvalid && written == 0
    {
      r, written := WriteErrInvalid, 0;
    }

    /**
     * read on the directory fails, whatever the handle and count. Nothing is
     * read: the source leaves the caller's buffer and out-count as they were,
     * which the model reports as empty 'data'.
     */
    method Read(count: nat) returns (r: ReadResult, data: seq<char>)
      ensures r == ReadErrInvalid && data == []
    {
      r, data := ReadErrInvalid, [];
    }

    /** ftruncate on the directory is not permitted. */
    method Ftruncate(length: nat) returns (r: FtruncateResult)
      ensures r == FtruncateErrNoPerm
    {
      r := FtruncateErrNoPerm;
    }
  }
}
