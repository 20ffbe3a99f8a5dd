/**
 * The selection state of the file chooser (src/lib.rs): canonical path
 * comparison and the arms of `FileChooser::update` that change selection,
 * display flags and the scanned directory.
 *
 * Canonicalisation (`Path::canonicalize`) is an oracle `canon` that fails
 * with `None`.  The scanned directory is kept abstract as a type parameter
 * `D`: its current path is read through the oracle `dirPath`, and the update
 * it receives from a finished scan is supplied by the caller.
 */
module Chooser {
  import opened Wrappers
  import PortalOption
  import DirFs

  type Path = string

  /** `is_samedir`: both paths canonicalise, to the same path. */
  function IsSameDir(canon: Path -> Option<Path>, a: Path, b: Path): (r: bool)
    ensures r <==> canon(a).Some? && canon(b).Some? && canon(a).value == canon(b).value
    ensures canon(a).None? || canon(b).None? ==> !r
  {
    match canon(a)
    case None => false
    case Some(originPath) =>
      match canon(b)
      case None => false
      case Some(selfPath) => selfPath == originPath
  }

  /** A resolvable path is the same as itself; the relation is symmetric and transitive. */
  lemma IsSameDirEquivalence(canon: Path -> Option<Path>, a: Path, b: Path, c: Path)
    ensures canon(a).Some? ==> IsSameDir(canon, a, a)
    ensures IsSameDir(canon, a, b) == IsSameDir(canon, b, a)
    ensures IsSameDir(canon, a, b) && IsSameDir(canon, b, c) ==> IsSameDir(canon, a, c)
  {
  }

  predicate NoDup(s: seq<Path>)
  {
    forall i, j :: 0 <= i < j < |s| ==> s[i] != s[j]
  }

  /** Index of the first occurrence of `p`. */
  function FirstIndex(s: seq<Path>, p: Path): (r: Option<nat>)
    ensures r.Some? ==> r.value < |s| && s[r.value] == p && p !in s[..r.value]
    ensures r.None? <==> p !in s
  {
    if s == [] then None
    else if s[0] == p then Some(0)
    else
      match FirstIndex(s[1..], p)
      case None => None
      case Some(k) =>
        assert s[..k + 1] == [s[0]] + s[1..][..k];
        Some(k + 1)
  }

  /** `iter().position(|q| *q == p)`: a left-to-right scan. */
  method Position(s: seq<Path>, p: Path) returns (idx: Option<nat>)
    ensures idx == FirstIndex(s, p)
  {
    var i := 0;
    while i < |s|
      invariant 0 <= i <= |s|
      invariant p !in s[..i]
    {
      if s[i] == p {
        return Some(i);
      }
      assert s[..i + 1] == s[..i] + [s[i]];
      i := i + 1;
    }
    assert s[..i] == s;
    return None;
  }

  /**
   * The list after checking `p`: in single mode exactly `[p]`; in multi mode
   * `p` appended unless already present.  No duplicate is ever introduced.
   */
  function Checked(selected: seq<Path>, multi: bool, p: Path): (r: seq<Path>)
    ensures p in r
    ensures !multi ==> r == [p]
    ensures multi ==> |selected| <= |r| && r[..|selected|] == selected
    ensures multi ==> forall q :: q in r <==> q in selected || q == p
    ensures multi && p in selected ==> r == selected
    ensures multi && p !in selected ==> r == selected + [p]
    ensures NoDup(selected) ==> NoDup(r)
  {
    var base := if multi then selected else [];
    if p in base then base else base + [p]
  }

  /**
   * The list after unchecking `p`: its first occurrence removed, or nothing
   * changed when absent.  On a duplicate-free list `p` is then gone and
   * every other path stays, in order.
   */
  function Unchecked(selected: seq<Path>, p: Path): (r: seq<Path>)
    ensures p !in selected ==> r == selected
    ensures p in selected ==> |r| == |selected| - 1
    ensures NoDup(selected) ==> NoDup(r) && p !in r
    ensures NoDup(selected) ==> forall q :: q in r <==> q in selected && q != p
    ensures p in selected ==>
      exists i :: 0 <= i < |selected| && selected[i] == p && p !in selected[..i] &&
        r == selected[..i] + selected[i + 1..]
  {
    match FirstIndex(selected, p)
    case None => selected
    case Some(i) =>
      var r := selected[..i] + selected[i + 1..];
      assert forall k :: 0 <= k < |r| ==> r[k] == (if k < i then selected[k] else selected[k + 1]);
      r
  }

  /** In multi mode, checking then unchecking an absent path restores the list. */
  lemma CheckUncheckRestores(selected: seq<Path>, p: Path)
    requires p !in selected
    ensures Unchecked(Checked(selected, true, p), p) == selected
  {
  }

  /**
   * `current_selected` after selecting `p`: cleared when it already names
   * the same file (compared after canonicalisation), otherwise `p`.
   */
  function ToggleSelected(canon: Path -> Option<Path>, current: Option<Path>, p: Path): (r: Option<Path>)
    requires current.Some? ==> canon(current.value).Some? && canon(p).Some?
    ensures r.None? <==> current.Some? && IsSameDir(canon, current.value, p)
    ensures r.Some? ==> r.value == p
  {
    if current.Some? && canon(current.value).value == canon(p).value then None else Some(p)
  }

  /** Selecting the same path twice clears the selection detail. */
  lemma SelectTwiceClears(canon: Path -> Option<Path>, current: Option<Path>, p: Path)
    requires canon(p).Some?
    requires current.Some? ==> canon(current.value).Some? && !IsSameDir(canon, current.value, p)
    ensures ToggleSelected(canon, ToggleSelected(canon, current, p), p) == None
  {
  }

  /** The chooser state that `update` works on. */
  class FileChooser<D> {
    var dir: D
    var showhide: bool
    var previewBigImage: bool
    var selectedPaths: seq<Path>
    var currentSelected: Option<Path>
    const chooseOption: PortalOption.FileChosen
    const canon: Path -> Option<Path>
    /** `DirUnit::current_dir` of the abstract directory state */
    const dirPath: D -> Path

    /** Selected paths never repeat; outside multi mode there is at most one. */
    ghost predicate Valid()
      reads this
    {
      NoDup(selectedPaths) && (!chooseOption.IsMultiFilechooser() ==> |selectedPaths| <= 1)
    }

    predicate IsMutiFilechooser() { chooseOption.IsMultiFilechooser() }

    /** `FileChooser::new`: nothing selected, hidden files and previews off. */
    constructor (chooseOption: PortalOption.FileChosen, canon: Path -> Option<Path>, dirPath: D -> Path, dir: D)
      ensures Valid()
      ensures this.chooseOption == chooseOption && this.canon == canon && this.dirPath == dirPath && this.dir == dir
      ensures !showhide && !previewBigImage && selectedPaths == [] && currentSelected == None
    {
      this.dir := dir;
      this.chooseOption := chooseOption;
      this.canon := canon;
      this.dirPath := dirPath;
      showhide := false;
      previewBigImage := false;
      selectedPaths := [];
      currentSelected := None;
    }

    /** `RequestNextDirs((dirs, path))`: only results for the current directory are taken. */
    method RequestNextDirs(dirs: seq<DirFs.FsInfo>, path: Path, appendAndEnd: (D, seq<DirFs.FsInfo>) -> D)
      modifies this
      ensures dir == if IsSameDir(canon, dirPath(old(dir)), path) then appendAndEnd(old(dir), dirs) else old(dir)
      ensures showhide == old(showhide) && previewBigImage == old(previewBigImage)
      ensures selectedPaths == old(selectedPaths) && currentSelected == old(currentSelected)
    {
      if IsSameDir(canon, dirPath(dir), path) {
        dir := appendAndEnd(dir, dirs);
      }
    }

    method RequestShowHide(showhide: bool)
      modifies this
      ensures this.showhide == showhide
      ensures dir == old(dir) && previewBigImage == old(previewBigImage)
      ensures selectedPaths == old(selectedPaths) && currentSelected == old(currentSelected)
    {
      this.showhide := showhide;
    }

    method RequestShowImage(showimage: bool)
      modifies this
      ensures previewBigImage == showimage
      ensures dir == old(dir) && showhide == old(showhide)
      ensures selectedPaths == old(selectedPaths) && currentSelected == old(currentSelected)
    {
      previewBigImage := showimage;
    }

    /** `RequestMutiSelect((checked, path))`: the checkbox on an entry. */
    method RequestMutiSelect(checked: bool, path: Path)
      requires Valid()
      modifies this
      ensures Valid()
      ensures selectedPaths == if checked then Checked(old(selectedPaths), IsMutiFilechooser(), path)
                               else Unchecked(old(selectedPaths), path)
      ensures dir == old(dir) && showhide == old(showhide) && previewBigImage == old(previewBigImage)
      ensures currentSelected == old(currentSelected)
    {
      if checked {
        if !IsMutiFilechooser() {
          selectedPaths := [];
        }
        if path in selectedPaths {
          return;
        }
        selectedPaths := selectedPaths + [path];
      } else {
        var index := Position(selectedPaths, path);
        if index.None? {
          return;
        }
        selectedPaths := selectedPaths[..index.value] + selectedPaths[index.value + 1..];
      }
    }

    /**
     * `RequestSelect(path)`: toggles the current selection, then adds `path`
     * to the selection as a checked multi-select does.  Canonicalisation is
     * unwrapped in the source, so both paths must resolve when it is reached.
     */
    method RequestSelect(path: Path)
      requires Valid()
      requires currentSelected.Some? ==> canon(currentSelected.value).Some? && canon(path).Some?
      modifies this
      ensures Valid()
      ensures currentSelected == ToggleSelected(canon, old(currentSelected), path)
      ensures selectedPaths == Checked(old(selectedPaths), IsMutiFilechooser(), path)
      ensures dir == old(dir) && showhide == old(showhide) && previewBigImage == old(previewBigImage)
    {
      if currentSelected.Some? && canon(currentSelected.value).value == canon(path).value {
        currentSelected := None;
      } else {
        currentSelected := Some(path);
      }
      if !IsMutiFilechooser() {
        selectedPaths := [];
      }
      if path in selectedPaths {
        return;
      }
      selectedPaths := selectedPaths + [path];
    }
  }
}
