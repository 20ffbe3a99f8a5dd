/**
 * The directory scanner of src/dirfs.rs: classification of one raw directory
 * entry into an `FsInfo`, the incremental scanner `DirUnit`, and the pure
 * helpers used by its view (entry name, permission bits, visibility and
 * eligibility).
 *
 * The operating system and the shared MIME database are oracles gathered in
 * a `FileSystem` value: `Path::is_dir`, `fs::read_dir`, and the two lookups
 * of `xdg_mime::SharedMimeInfo` the scanner uses.
 */
module DirFs {
  import opened Wrappers
  import opened NameSort

  type Path = string
  type Mime = string

  /** Owner permission bits of `st_mode`, as in libc (octal 0400, 0200, 0100). */
  const S_IRUSR: bv32 := 0x100
  const S_IWUSR: bv32 := 0x80
  const S_IXUSR: bv32 := 0x40

  const DIR_ICON: string := "inode-directory"
  const TEXT_ICON: string := "text-plain"
  const IMAGE_ICON: string := "image-x-generic"
  const SVG_MIME: Mime := "image/svg+xml"

  /** Below this many raw entries `DirUnit::enter` drains the listing at once. */
  const SYNC_SCAN_LIMIT: nat := 1000

  /** What `DirEntry::metadata` reports (it does not follow symlinks). */
  datatype Metadata = Metadata(mode: bv32, isSymlink: bool, isDir: bool)

  /**
   * One successfully read directory entry.  `fileName` is `None` when the
   * OS name is not valid Unicode, `metadata` is `None` when reading it fails,
   * `linkTarget` is what `fs::read_link` would return for this path: the
   * content of the link itself, present even when the link dangles, absent
   * only when the link cannot be read (it vanished, or permission denied).
   */
  datatype RawEntry = RawEntry(
    fileName: Option<string>,
    metadata: Option<Metadata>,
    path: Path,
    linkTarget: Option<Path>)

  /** The services the scanner consumes. */
  datatype FileSystem = FileSystem(
    /** `Path::is_dir`, which follows symlinks */
    isDir: Path -> bool,
    /** `fs::read_dir`: `None` when opening fails; an inner `None` is an entry that failed to read */
    readDir: Path -> Option<seq<Option<RawEntry>>>,
    /** `SharedMimeInfo::get_mime_types_from_file_name` */
    mimeTypes: string -> seq<Mime>,
    /** `SharedMimeInfo::lookup_generic_icon_name` */
    genericIcon: Mime -> Option<string>)

  /** The `[u32; 3]` of owner read, write and execute bits. */
  datatype Permission = Permission(read: bv32, write: bv32, exec: bv32)

  datatype FsInfo =
    | File(path: Path, icon: string, permission: Permission, name: string, symlink: Option<Path>, mimeinfo: seq<Mime>)
    | Dir(path: Path, name: string, permission: Permission, symlink: Option<Path>)
  {
    function Name(): string { name }

    function Icon(): string
    {
      match this
      case File(_, icon, _, _, _, _) => icon
      case Dir(_, _, _, _) => DIR_ICON
    }

    predicate IsDir() { Dir? }

    predicate IsFile() { File? }

    /** Files count as readable; a directory is readable when it can be opened. */
    predicate IsReadable(fs: FileSystem)
    {
      IsFile() || (IsDir() && fs.readDir(path).Some?)
    }

    predicate IsSvg()
    {
      File? && SVG_MIME in mimeinfo
    }

    predicate IsImage() { Icon() == IMAGE_ICON }

    predicate IsWriteable() { permission.write == S_IWUSR }

    predicate IsExecutable() { permission.exec == S_IXUSR }

    predicate IsHidden() { |name| > 0 && name[0] == '.' }

    predicate IsSymlink() { symlink.Some? }
  }

  /** Bit `k` (0 = least significant) of a mode word. */
  predicate ModeBit(mode: bv32, k: nat)
    requires k < 32
  {
    (mode >> k) & 1 == 1
  }

  /**
   * Each component is 0 or exactly the owner bit it stands for, decided by
   * bits 8, 7 and 6 of the mode (rwx for the owner) and by nothing else.
   */
  function ParsePermission(mode: bv32): (p: Permission)
    ensures p.read == (if ModeBit(mode, 8) then S_IRUSR else 0)
    ensures p.write == (if ModeBit(mode, 7) then S_IWUSR else 0)
    ensures p.exec == (if ModeBit(mode, 6) then S_IXUSR else 0)
  {
    Permission(mode & S_IRUSR, mode & S_IWUSR, mode & S_IXUSR)
  }

  /** Rust's `str::split('/')`: the pieces between separators, at least one. */
  function Split(s: string): (parts: seq<string>)
    ensures |parts| >= 1
    decreases |s|
  {
    if s == [] then [[]]
    else
      var rest := Split(s[1..]);
      if s[0] == '/' then [[]] + rest
      else [[s[0]] + rest[0]] + rest[1..]
  }

  /** The last piece of `Split(s)` is the longest suffix of `s` without '/'. */
  lemma {:induction false} SplitLast(s: string)
    ensures '/' in s <==> |Split(s)| > 1
    ensures var l := Split(s)[|Split(s)| - 1];
      && '/' !in l
      && |l| <= |s|
      && s[|s| - |l|..] == l
      && (|l| == |s| || s[|s| - |l| - 1] == '/')
    decreases |s|
  {
    if s != [] {
      SplitLast(s[1..]);
      var rest := Split(s[1..]);
      var l' := rest[|rest| - 1];
      assert s == [s[0]] + s[1..];
      if s[0] == '/' {
        assert Split(s)[|Split(s)| - 1] == l';
      } else if |rest| == 1 {
        assert '/' !in s[1..];
        assert l' == s[1..];
        assert Split(s) == [[s[0]] + rest[0]];
      } else {
        assert Split(s)[|Split(s)| - 1] == l';
        assert '/' in s[1..];
        assert |l'| < |s[1..]|;
      }
    }
  }

  /**
   * The display name of a directory: the text after the last '/', or "/"
   * when that text is empty (the root, or a path ending in '/').
   */
  function GetDirName(dir: Path): (r: string)
    ensures r == "/" <==> (dir == [] || dir[|dir| - 1] == '/')
    ensures r != "/" ==>
      && '/' !in r
      && |r| <= |dir|
      && r == dir[|dir| - |r|..]
      && (|r| == |dir| || dir[|dir| - |r| - 1] == '/')
  {
    SplitLast(dir);
    var parts := Split(dir);
    var last := parts[|parts| - 1];
    if last == [] then "/"
    else
      assert last[|last| - 1] == dir[|dir| - 1];
      assert last[|last| - 1] in last;
      last
  }

  /** Icon of a file: the generic icon of its first MIME candidate, else "text-plain". */
  function FileIcon(mimes: seq<Mime>, fs: FileSystem): string
  {
    if |mimes| > 0 && fs.genericIcon(mimes[0]).Some? then fs.genericIcon(mimes[0]).value
    else TEXT_ICON
  }

  datatype PollError = InvalidEntry | MetadataUnavailable

  /** `fs::read_link(..).unwrap()` is reached only for symlinks, and must succeed. */
  predicate ReadLinkSucceeds(raw: RawEntry)
  {
    raw.fileName.Some? && raw.metadata.Some? && raw.metadata.value.isSymlink ==> raw.linkTarget.Some?
  }

  /** The entry `polldir` builds from one raw entry, or the error it returns. */
  function Classify(raw: RawEntry, fs: FileSystem): (r: Result<FsInfo, PollError>)
    requires ReadLinkSucceeds(raw)
    ensures raw.fileName.None? ==> r == Err(InvalidEntry)
    ensures raw.fileName.Some? && raw.metadata.None? ==> r == Err(MetadataUnavailable)
    ensures r.Ok? <==> raw.fileName.Some? && raw.metadata.Some?
    ensures r.Ok? ==>
      var md := raw.metadata.value;
      && r.value.Name() == raw.fileName.value
      && r.value.path == raw.path
      && r.value.permission == ParsePermission(md.mode)
      && r.value.symlink == (if md.isSymlink then raw.linkTarget else None)
      && (r.value.IsSymlink() <==> md.isSymlink)
      && (r.value.IsDir() <==> if md.isSymlink then fs.isDir(raw.path) else md.isDir)
      && (r.value.IsDir() ==> r.value.Icon() == DIR_ICON)
      && (r.value.IsFile() ==>
            r.value.mimeinfo == fs.mimeTypes(raw.fileName.value) &&
            r.value.Icon() == FileIcon(fs.mimeTypes(raw.fileName.value), fs))
      && (r.value.IsWriteable() <==> md.mode & S_IWUSR != 0)
      && (r.value.IsExecutable() <==> md.mode & S_IXUSR != 0)
  {
    if raw.fileName.None? then Err(InvalidEntry)
    else if raw.metadata.None? then Err(MetadataUnavailable)
    else
      var name := raw.fileName.value;
      var md := raw.metadata.value;
      var permission := ParsePermission(md.mode);
      var symlink := if md.isSymlink then Some(raw.linkTarget.value) else None;
      var isDir := if md.isSymlink then fs.isDir(raw.path) else md.isDir;
      if isDir then Ok(Dir(raw.path, name, permission, symlink))
      else
        var mimeinfo := fs.mimeTypes(name);
        Ok(File(raw.path, FileIcon(mimeinfo, fs), permission, name, symlink, mimeinfo))
  }

  /** The sort key of `polldir`: `FsInfo::name`. */
  const ByName: FsInfo -> string := (info: FsInfo) => info.Name()

  /**
   * The collection after `polldir` pushes `e`: a symlink is appended and the
   * function returns before the sort; any other entry is followed by a
   * stable re-sort by name.
   */
  function PushEntry(infos: seq<FsInfo>, e: FsInfo): (r: seq<FsInfo>)
  {
    if e.IsSymlink() then infos + [e] else SortBy(infos + [e], ByName)
  }

  /**
   * One push adds exactly `e` and keeps every earlier entry; after a
   * non-symlink the collection is sorted, and if it was sorted before, the
   * earlier entries keep their relative order with `e` spliced in.
   */
  lemma PushEntryProperties(infos: seq<FsInfo>, e: FsInfo)
    ensures |PushEntry(infos, e)| == |infos| + 1
    ensures multiset(PushEntry(infos, e)) == multiset(infos) + multiset{e}
    ensures e.IsSymlink() ==> PushEntry(infos, e) == infos + [e]
    ensures !e.IsSymlink() ==> SortedBy(PushEntry(infos, e), ByName)
    ensures !e.IsSymlink() && SortedBy(infos, ByName) ==>
      exists k :: 0 <= k <= |infos| && PushEntry(infos, e) == infos[..k] + [e] + infos[k..]
  {
    if !e.IsSymlink() {
      SortBySorted(infos + [e], ByName);
      if SortedBy(infos, ByName) {
        SortAfterAppend(infos, e, ByName);
        var k := InsertPos(e, infos, ByName);
        assert PushEntry(infos, e) == infos[..k] + [e] + infos[k..];
      }
    }
  }

  /** The collection after `polldir` consumes `raw`: unchanged on an error. */
  function StepInfos(infos: seq<FsInfo>, raw: RawEntry, fs: FileSystem): seq<FsInfo>
    requires ReadLinkSucceeds(raw)
  {
    match Classify(raw, fs)
    case Ok(e) => PushEntry(infos, e)
    case Err(_) => infos
  }

  predicate AllReadLinksSucceed(entries: seq<RawEntry>)
  {
    forall i :: 0 <= i < |entries| ==> ReadLinkSucceeds(entries[i])
  }

  /** The collection after polling until the cursor is exhausted. */
  function Drain(infos: seq<FsInfo>, entries: seq<RawEntry>, fs: FileSystem): seq<FsInfo>
    requires AllReadLinksSucceed(entries)
    decreases |entries|
  {
    if entries == [] then infos
    else Drain(StepInfos(infos, entries[0], fs), entries[1..], fs)
  }

  /** The entries that classify successfully, in listing order. */
  function Classified(entries: seq<RawEntry>, fs: FileSystem): (r: seq<FsInfo>)
    requires AllReadLinksSucceed(entries)
    ensures |r| <= |entries|
    decreases |entries|
  {
    if entries == [] then []
    else
      var rest := Classified(entries[1..], fs);
      match Classify(entries[0], fs)
      case Ok(e) => [e] + rest
      case Err(_) => rest
  }

  /**
   * Draining keeps what was there and adds exactly the entries that
   * classify successfully, each once; the skipped entries add nothing.
   */
  lemma {:induction false} DrainCollectsClassified(infos: seq<FsInfo>, entries: seq<RawEntry>, fs: FileSystem)
    requires AllReadLinksSucceed(entries)
    ensures multiset(Drain(infos, entries, fs)) == multiset(infos) + multiset(Classified(entries, fs))
    ensures |Drain(infos, entries, fs)| == |infos| + |Classified(entries, fs)|
    decreases |entries|
  {
    if entries != [] {
      var next := StepInfos(infos, entries[0], fs);
      DrainCollectsClassified(next, entries[1..], fs);
      match Classify(entries[0], fs)
      case Ok(e) =>
        PushEntryProperties(infos, e);
      case Err(_) =>
    }
  }

  /** Without symlinks in the listing, a drained collection is sorted by name. */
  lemma {:induction false} DrainSortedWithoutSymlinks(infos: seq<FsInfo>, entries: seq<RawEntry>, fs: FileSystem)
    requires AllReadLinksSucceed(entries)
    requires SortedBy(infos, ByName)
    requires forall i :: 0 <= i < |entries| && entries[i].metadata.Some? ==> !entries[i].metadata.value.isSymlink
    ensures SortedBy(Drain(infos, entries, fs), ByName)
    decreases |entries|
  {
    if entries != [] {
      var next := StepInfos(infos, entries[0], fs);
      assert SortedBy(next, ByName) by {
        match Classify(entries[0], fs)
        case Ok(e) =>
          PushEntryProperties(infos, e);
        case Err(_) =>
      }
      DrainSortedWithoutSymlinks(next, entries[1..], fs);
    }
  }

  /** `Iterator::flatten` over `read_dir`: entries that failed to read are dropped. */
  function Flatten(listing: seq<Option<RawEntry>>): (r: seq<RawEntry>)
    ensures |r| <= |listing|
    ensures forall e :: e in r <==> Some(e) in listing
  {
    if listing == [] then []
    else
      var rest := Flatten(listing[1..]);
      assert listing == [listing[0]] + listing[1..];
      match listing[0]
      case Some(e) => [e] + rest
      case None => rest
  }

  /** Flattening keeps the listing order: it distributes over concatenation. */
  lemma {:induction false} FlattenAppend(a: seq<Option<RawEntry>>, b: seq<Option<RawEntry>>)
    ensures Flatten(a + b) == Flatten(a) + Flatten(b)
  {
    if a != [] {
      assert (a + b)[1..] == a[1..] + b;
      FlattenAppend(a[1..], b);
    } else {
      assert a + b == b;
    }
  }

  datatype DirError = NotADirectory | ReadDirFailed

  /**
   * `ls_dir_pre`: fails unless `dir` is a directory that can be opened;
   * otherwise the raw entry count (read errors included) and the cursor
   * over the entries that were read.
   */
  function LsDirPre(dir: Path, fs: FileSystem): (r: Result<(nat, seq<RawEntry>), DirError>)
    ensures !fs.isDir(dir) ==> r == Err(NotADirectory)
    ensures r.Ok? <==> fs.isDir(dir) && fs.readDir(dir).Some?
    ensures r.Ok? ==> r.value.0 == |fs.readDir(dir).value| && |r.value.1| <= r.value.0
  {
    if !fs.isDir(dir) then Err(NotADirectory)
    else match fs.readDir(dir)
      case None => Err(ReadDirFailed)
      case Some(listing) => Ok((|listing|, Flatten(listing)))
  }

  /**
   * The preview rules on a classified entry: it renders as an SVG exactly
   * when it is a file whose MIME candidates include image/svg+xml, and as a
   * raster image exactly when it is a file whose first MIME candidate has
   * the generic image icon.  Directories are never previewed.
   */
  lemma ClassifiedPreview(raw: RawEntry, fs: FileSystem, e: FsInfo)
    requires ReadLinkSucceeds(raw)
    requires Classify(raw, fs) == Ok(e)
    ensures e.IsSvg() <==> e.IsFile() && SVG_MIME in fs.mimeTypes(raw.fileName.value)
    ensures e.IsImage() <==> e.IsFile() && FileIcon(fs.mimeTypes(raw.fileName.value), fs) == IMAGE_ICON
  {
  }

  /** Whether `view` shows an entry (its filter closure). */
  predicate Shown(info: FsInfo, showHide: bool)
  {
    showHide || !info.IsHidden()
  }

  /** The entries `view` lays out, in collection order. */
  function VisibleInfos(infos: seq<FsInfo>, showHide: bool): (r: seq<FsInfo>)
    ensures |r| <= |infos|
    ensures forall x :: x in r <==> x in infos && Shown(x, showHide)
  {
    if infos == [] then []
    else
      var rest := VisibleInfos(infos[1..], showHide);
      assert infos == [infos[0]] + infos[1..];
      if Shown(infos[0], showHide) then [infos[0]] + rest else rest
  }

  /** Filtering keeps collection order: it distributes over concatenation. */
  lemma {:induction false} VisibleInfosAppend(a: seq<FsInfo>, b: seq<FsInfo>, showHide: bool)
    ensures VisibleInfos(a + b, showHide) == VisibleInfos(a, showHide) + VisibleInfos(b, showHide)
  {
    if a != [] {
      assert (a + b)[1..] == a[1..] + b;
      VisibleInfosAppend(a[1..], b, showHide);
    } else {
      assert a + b == b;
    }
  }

  /** An entry no greater than every entry of a sorted collection can lead it. */
  lemma ConsSorted(x: FsInfo, rest: seq<FsInfo>)
    requires SortedBy(rest, ByName)
    requires forall y :: y in rest ==> NameLe(ByName(x), ByName(y))
    ensures SortedBy([x] + rest, ByName)
  {
    var r := [x] + rest;
    forall i, j | 0 <= i < j < |r| ensures NameLe(ByName(r[i]), ByName(r[j])) {
      assert r[j] == rest[j - 1];
      if i > 0 {
        assert r[i] == rest[i - 1];
      }
    }
  }

  /** The head of a sorted collection is no greater than any entry shown after it. */
  lemma HeadBeforeShown(infos: seq<FsInfo>, showHide: bool)
    requires infos != [] && SortedBy(infos, ByName)
    ensures forall y :: y in VisibleInfos(infos[1..], showHide) ==> NameLe(ByName(infos[0]), ByName(y))
  {
    forall y | y in VisibleInfos(infos[1..], showHide) ensures NameLe(ByName(infos[0]), ByName(y)) {
      var k :| 0 <= k < |infos[1..]| && infos[1..][k] == y;
      assert infos[k + 1] == y;
    }
  }

  /**
   * Showing hidden entries reveals every entry and filtering never reorders:
   * a sorted collection stays sorted whatever the setting.
   */
  lemma {:induction false} VisibleInfosKeepsOrder(infos: seq<FsInfo>, showHide: bool)
    ensures showHide ==> VisibleInfos(infos, showHide) == infos
    ensures SortedBy(infos, ByName) ==> SortedBy(VisibleInfos(infos, showHide), ByName)
  {
    if infos != [] {
      VisibleInfosKeepsOrder(infos[1..], showHide);
      if SortedBy(infos, ByName) {
        assert SortedBy(infos[1..], ByName);
        if Shown(infos[0], showHide) {
          HeadBeforeShown(infos, showHide);
          ConsSorted(infos[0], VisibleInfos(infos[1..], showHide));
        }
      }
    }
  }

  /** `dir_can_enter` in `view`. */
  predicate DirCanEnter(info: FsInfo, fs: FileSystem)
  {
    info.IsDir() && info.IsReadable(fs)
  }

  /** `can_selected` in `view`: readable and of the kind being chosen. */
  predicate CanSelected(info: FsInfo, fs: FileSystem, selectDir: bool)
  {
    info.IsReadable(fs) && (info.IsDir() == selectDir)
  }

  /**
   * Files are always readable, so a file is selectable exactly when files
   * are being chosen; a directory exactly when directories are chosen and it opens.
   */
  lemma CanSelectedByKind(info: FsInfo, fs: FileSystem, selectDir: bool)
    ensures info.IsFile() ==> (CanSelected(info, fs, selectDir) <==> !selectDir)
    ensures info.IsDir() ==> (CanSelected(info, fs, selectDir) <==> selectDir && fs.readDir(info.path).Some?)
    ensures info.IsDir() ==> (DirCanEnter(info, fs) <==> fs.readDir(info.path).Some?)
  {
  }

  /** The scanner state: a cursor over the listing, the entries so far, and the end flag. */
  class DirUnit {
    var isEnd: bool
    var iter: seq<RawEntry>
    var infos: seq<FsInfo>
    var currentDir: Path

    /** Once the end flag is set the cursor is exhausted. */
    ghost predicate Valid()
      reads this
    {
      isEnd ==> iter == []
    }

    constructor (dir: Path, entries: seq<RawEntry>)
      ensures Valid()
      ensures !isEnd && iter == entries && infos == [] && currentDir == dir
    {
      isEnd := false;
      iter := entries;
      infos := [];
      currentDir := dir;
    }

    /** `ls_end`: once it reports the end, no raw entry is left to poll. */
    function LsEnd(): (r: bool)
      reads this
      requires Valid()
      ensures r ==> iter == []
    {
      isEnd
    }

    /**
     * Consume one raw entry.  At the end of the listing only the flag
     * changes; otherwise the cursor advances by one whatever happens, and the
     * collection changes exactly when the entry classifies.
     */
    method PollDir(fs: FileSystem) returns (r: Result<(), PollError>)
      requires Valid()
      requires iter != [] ==> ReadLinkSucceeds(iter[0])
      modifies this
      ensures Valid()
      ensures currentDir == old(currentDir)
      ensures old(isEnd) ==> isEnd
      ensures old(iter) == [] ==> r.Ok? && isEnd && iter == [] && infos == old(infos)
      ensures old(iter) != [] ==>
        && isEnd == old(isEnd)
        && iter == old(iter)[1..]
        && (match Classify(old(iter)[0], fs)
            case Err(err) => r == Err(err) && infos == old(infos)
            case Ok(e) => r.Ok? && infos == PushEntry(old(infos), e))
    {
      if iter == [] {
        isEnd := true;
        return Ok(());
      }
      var file := iter[0];
      iter := iter[1..];
      if file.fileName.None? {
        return Err(InvalidEntry);
      }
      if file.metadata.None? {
        return Err(MetadataUnavailable);
      }
      var entry := Classify(file, fs);
      infos := infos + [entry.value];
      if file.metadata.value.isSymlink {
        return Ok(());
      }
      infos := SortBy(infos, ByName);
      return Ok(());
    }

    /**
     * `DirUnit::enter`: fails when `dir` is not a directory or cannot be
     * opened.  Below `SYNC_SCAN_LIMIT` raw entries it polls until the end, so
     * the unit comes back finished with every classifiable entry; otherwise
     * it comes back empty and unfinished, holding the whole cursor.
     */
    static method Enter(dir: Path, fs: FileSystem) returns (r: Result<DirUnit, DirError>)
      requires LsDirPre(dir, fs).Ok? && LsDirPre(dir, fs).value.0 < SYNC_SCAN_LIMIT ==>
        AllReadLinksSucceed(LsDirPre(dir, fs).value.1)
      ensures r.Err? <==> LsDirPre(dir, fs).Err?
      ensures r.Err? ==> r.error == LsDirPre(dir, fs).error
      ensures r.Ok? ==> fresh(r.value) && r.value.Valid() && r.value.currentDir == dir
      ensures r.Ok? ==>
        var (count, entries) := LsDirPre(dir, fs).value;
        if count < SYNC_SCAN_LIMIT then
          r.value.LsEnd() && r.value.iter == [] && r.value.infos == Drain([], entries, fs)
        else
          !r.value.LsEnd() && r.value.iter == entries && r.value.infos == []
    {
      var pre := LsDirPre(dir, fs);
      if pre.Err? {
        return Err(pre.error);
      }
      var (count, entries) := pre.value;
      var unit := new DirUnit(dir, entries);
      if count < SYNC_SCAN_LIMIT {
        while !unit.isEnd
          invariant unit.Valid() && unit.currentDir == dir
          invariant AllReadLinksSucceed(unit.iter)
          invariant Drain(unit.infos, unit.iter, fs) == Drain([], entries, fs)
          decreases |unit.iter|, !unit.isEnd
        {
          var _ := unit.PollDir(fs);
        }
      }
      return Ok(unit);
    }
  }
}
