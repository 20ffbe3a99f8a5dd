/**
 * The option data a desktop file-chooser portal passes in
 * (src/portal_option.rs): a NUL-terminated file path, file filters, extra
 * choices, and the open/save request itself.
 */
module PortalOption {
  import opened Wrappers

  newtype byte = b: int | 0 <= b < 256

  const NUL: byte := 0

  /** The bytes of a `CString`: no NUL inside; the terminator is implicit. */
  type CBytes = s: seq<byte> | NUL !in s

  datatype FilePath = FilePath(bytes: CBytes)

  const NOT_NUL_TERMINATED: string := "Bytes are not nul-terminated"

  /** Serialised form: the path bytes with their terminating NUL. */
  function Serialize(p: FilePath): seq<byte>
  {
    p.bytes + [NUL]
  }

  /** Index of the first NUL byte, as `memchr` finds it. */
  function FirstNul(bs: seq<byte>): (r: Option<nat>)
    ensures r.Some? ==> r.value < |bs| && bs[r.value] == NUL && NUL !in bs[..r.value]
    ensures r.None? ==> NUL !in bs
  {
    if bs == [] then None
    else if bs[0] == NUL then Some(0)
    else
      match FirstNul(bs[1..])
      case None => None
      case Some(k) =>
        assert bs[..k + 1] == [bs[0]] + bs[1..][..k];
        Some(k + 1)
  }

  /**
   * `CString::from_vec_with_nul`: accepted only when the first NUL is the
   * last byte; an interior NUL and a missing terminator are both refused.
   */
  function Deserialize(bs: seq<byte>): (r: Result<FilePath, string>)
    ensures r.Ok? <==> |bs| > 0 && bs[|bs| - 1] == NUL && NUL !in bs[..|bs| - 1]
    ensures r.Ok? ==> Serialize(r.value) == bs
    ensures r.Err? ==> r.error == NOT_NUL_TERMINATED
  {
    match FirstNul(bs)
    case Some(pos) =>
      if pos + 1 == |bs| then
        assert bs == bs[..pos] + [NUL];
        Ok(FilePath(bs[..pos]))
      else
        assert bs[pos] in bs[..|bs| - 1];
        Err(NOT_NUL_TERMINATED)
    case None =>
      Err(NOT_NUL_TERMINATED)
  }

  lemma SerializeRoundTrip(p: FilePath)
    ensures Deserialize(Serialize(p)) == Ok(p)
  {
  }

  datatype FilterType = GlobPattern | MimeType
  {
    predicate IsMimetype() { MimeType? }

    predicate IsPattern() { GlobPattern? }

    /** The tag test of the projection for `t`: `is_mimetype` or `is_pattern`. */
    predicate IsKind(t: FilterType)
    {
      if t.MimeType? then IsMimetype() else IsPattern()
    }
  }

  /** The filter strings tagged `t`, in order. */
  function Select(filters: seq<(FilterType, string)>, t: FilterType): (r: seq<string>)
    ensures |r| <= |filters|
  {
    if filters == [] then []
    else
      var last := filters[|filters| - 1];
      Select(filters[..|filters| - 1], t) + (if last.0.IsKind(t) then [last.1] else [])
  }

  /** Selecting distributes over concatenation: the projection keeps order. */
  lemma {:induction false} SelectAppend(a: seq<(FilterType, string)>, b: seq<(FilterType, string)>, t: FilterType)
    ensures Select(a + b, t) == Select(a, t) + Select(b, t)
    decreases |b|
  {
    if b != [] {
      var b' := b[..|b| - 1];
      assert (a + b)[..|a + b| - 1] == a + b';
      assert (a + b)[|a + b| - 1] == b[|b| - 1];
      SelectAppend(a, b', t);
    } else {
      assert a + b == a;
    }
  }

  /** A string is selected exactly when it occurs with tag `t`. */
  lemma {:induction false} SelectMembership(filters: seq<(FilterType, string)>, t: FilterType, s: string)
    ensures s in Select(filters, t) <==> (t, s) in filters
  {
    if filters != [] {
      var init := filters[..|filters| - 1];
      SelectMembership(init, t, s);
      assert filters == init + [filters[|filters| - 1]];
    }
  }

  /** The two projections split the filters between them. */
  lemma {:induction false} SelectPartition(filters: seq<(FilterType, string)>)
    ensures |Select(filters, MimeType)| + |Select(filters, GlobPattern)| == |filters|
  {
    if filters != [] {
      SelectPartition(filters[..|filters| - 1]);
    }
  }

  /** Displayed filter strings: " s" for each filter, in order. */
  function ShowFilters(filters: seq<(FilterType, string)>): string
  {
    if filters == [] then ""
    else ShowFilters(filters[..|filters| - 1]) + " " + filters[|filters| - 1].1
  }

  /** A labelled list of (kind, string) filters. */
  datatype FileFilter = FileFilter(displayName: string, filters: seq<(FilterType, string)>)
  {
    static function New(displayName: string): (f: FileFilter)
      ensures f.Label() == displayName && f.GetFilters() == []
    {
      FileFilter(displayName, [])
    }

    static function Default(): (f: FileFilter)
      ensures f.Label() == "All files: (*)" && f.GetFilters() == []
    {
      FileFilter("All files: (*)", [])
    }

    function Title(): string { displayName }

    function Label(): string { displayName }

    function GetFilters(): seq<(FilterType, string)> { filters }

    function Mimetype(mimetype: string): (f: FileFilter)
      ensures f.Label() == Label() && f.GetFilters() == GetFilters() + [(MimeType, mimetype)]
    {
      FileFilter(displayName, filters + [(MimeType, mimetype)])
    }

    function Glob(pattern: string): (f: FileFilter)
      ensures f.Label() == Label() && f.GetFilters() == GetFilters() + [(GlobPattern, pattern)]
    {
      FileFilter(displayName, filters + [(GlobPattern, pattern)])
    }

    function MimetypeFilters(): seq<string> { Select(filters, MimeType) }

    function PatternFilters(): seq<string> { Select(filters, GlobPattern) }

    /** What `Display` writes: the label, " :", then " s" per filter. */
    function Display(): string { displayName + " :" + ShowFilters(filters) }
  }

  /** `Display::fmt`: the label and " :", then each filter string pushed in turn. */
  method Fmt(f: FileFilter) returns (s: string)
    ensures s == f.Display()
  {
    s := f.displayName + " :";
    var i := 0;
    while i < |f.filters|
      invariant 0 <= i <= |f.filters|
      invariant s == f.displayName + " :" + ShowFilters(f.filters[..i])
    {
      assert f.filters[..i + 1][..i] == f.filters[..i];
      s := s + " " + f.filters[i].1;
      i := i + 1;
    }
    assert f.filters[..i] == f.filters;
  }

  /**
   * Each builder extends exactly one projection by its argument and leaves
   * the other alone; the display grows by " " and the argument.
   */
  lemma BuildersExtendProjections(f: FileFilter, s: string)
    ensures f.Mimetype(s).MimetypeFilters() == f.MimetypeFilters() + [s]
    ensures f.Mimetype(s).PatternFilters() == f.PatternFilters()
    ensures f.Glob(s).PatternFilters() == f.PatternFilters() + [s]
    ensures f.Glob(s).MimetypeFilters() == f.MimetypeFilters()
    ensures f.Mimetype(s).Display() == f.Display() + " " + s
    ensures f.Glob(s).Display() == f.Display() + " " + s
  {
  }

  /** A filter without entries displays as its label and " :". */
  lemma DisplayWithoutFilters(displayName: string)
    ensures FileFilter.New(displayName).Display() == displayName + " :"
    ensures FileFilter.Default().Display() == "All files: (*) :"
  {
  }

  /** A checkbox or a list of (key, value) options, with its initial value. */
  datatype Choice = Choice(id: string, displayName: string, pairs: seq<(string, string)>, initialSelection: string)
  {
    static function New(id: string, displayName: string, initialSelection: string): (c: Choice)
      ensures c.Id() == id && c.Label() == displayName && c.Pairs() == []
      ensures c.InitialSelection() == initialSelection
    {
      Choice(id, displayName, [], initialSelection)
    }

    /** A checkbox: its initial value is `bool::to_string` of `state`. */
    static function Boolean(id: string, displayName: string, state: bool): (c: Choice)
      ensures c.Id() == id && c.Label() == displayName && c.Pairs() == []
      ensures c.InitialSelection() == (if state then "true" else "false")
    {
      New(id, displayName, if state then "true" else "false")
    }

    function Insert(key: string, value: string): (c: Choice)
      ensures c.Pairs() == Pairs() + [(key, value)]
      ensures c.Id() == Id() && c.Label() == Label() && c.InitialSelection() == InitialSelection()
    {
      Choice(id, displayName, pairs + [(key, value)], initialSelection)
    }

    function Id(): string { id }

    function Label(): string { displayName }

    function Pairs(): seq<(string, string)> { pairs }

    function InitialSelection(): string { initialSelection }
  }

  /** The choice after inserting `kvs` one after another. */
  function InsertAll(c: Choice, kvs: seq<(string, string)>): Choice
  {
    if kvs == [] then c else InsertAll(c, kvs[..|kvs| - 1]).Insert(kvs[|kvs| - 1].0, kvs[|kvs| - 1].1)
  }

  /** Pairs come back in insertion order, and nothing else changes. */
  lemma {:induction false} InsertAllInOrder(c: Choice, kvs: seq<(string, string)>)
    ensures InsertAll(c, kvs).Pairs() == c.Pairs() + kvs
    ensures InsertAll(c, kvs).Id() == c.Id() && InsertAll(c, kvs).Label() == c.Label()
    ensures InsertAll(c, kvs).InitialSelection() == c.InitialSelection()
  {
    if kvs != [] {
      InsertAllInOrder(c, kvs[..|kvs| - 1]);
      assert kvs == kvs[..|kvs| - 1] + [kvs[|kvs| - 1]];
    }
  }

  /**
   * An OpenFile or a SaveFile request.  SaveFile's `current_folder` is named
   * `saveFolder` here: a destructor has one type, and OpenFile's
   * `currentFolder` is optional while SaveFile's is not.
   */
  datatype FileChosen =
    | OpenFile(handleToken: string, acceptLabel: string, modal: bool, multiple: bool, directory: bool,
               filters: seq<FileFilter>, currentFilter: Option<FileFilter>, choices: seq<Choice>,
               currentFolder: Option<FilePath>)
    | SaveFile(handleToken: string, acceptLabel: string, modal: bool,
               filters: seq<FileFilter>, currentFilter: Option<FileFilter>, choices: seq<Choice>,
               saveFolder: FilePath, currentFile: FilePath)
  {
    static function Default(): FileChosen
    {
      OpenFile("", "", true, false, false, [], None, [], None)
    }

    predicate IsFilechooser() { OpenFile? }

    predicate IsMultiFilechooser() { OpenFile? && multiple }

    predicate IsSavefile() { !IsFilechooser() }

    predicate IsDirectory() { OpenFile? && directory }

    function Filters(): seq<FileFilter> { filters }

    function Choices(): seq<Choice> { choices }

    function HandleToken(): string { handleToken }

    function AcceptLabel(): string { acceptLabel }

    function CurrentFilter(): Option<FileFilter> { currentFilter }

    function IsModal(): bool { modal }
  }

  /**
   * Saving is exactly not opening; multiple selection and directory mode
   * exist only on an open request; the default request is a modal,
   * single-file, non-directory open with nothing preset.
   */
  lemma FileChosenModes(c: FileChosen)
    ensures c.IsSavefile() <==> !c.IsFilechooser()
    ensures c.IsMultiFilechooser() ==> c.IsFilechooser()
    ensures c.IsDirectory() ==> c.IsFilechooser()
    ensures c.IsFilechooser() ==> (c.IsMultiFilechooser() <==> c.multiple)
    ensures c.IsFilechooser() ==> (c.IsDirectory() <==> c.directory)
  {
  }

  lemma DefaultIsModalSingleOpen()
    ensures var d := FileChosen.Default();
      && d.IsFilechooser() && d.IsModal() && !d.IsMultiFilechooser() && !d.IsDirectory()
      && d.Filters() == [] && d.Choices() == [] && d.CurrentFilter() == None
      && d.HandleToken() == "" && d.AcceptLabel() == "" && d.currentFolder == None
  {
  }
}
