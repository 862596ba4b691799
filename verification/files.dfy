/** WindowManager and FileManager: the registry of open files, keyed by file
    name, each holding the window sets opened on it in creation order, and the
    routing of band-list selections to the file they name. Screen geometry and
    the position of existing image windows (which the user may have moved) are
    parameters. */
module Files {
  import opened Base
  import WindowSets

  datatype Rect = Rect(x: int, y: int, width: int, height: int)

  datatype FileManager = FileManager(name: string, bandCount: nat, sets: seq<WsId>)

  /** Where `init_position` puts a new window set's main image window. */
  datatype Placement = Placement(x: int, y: int)

  datatype WindowManager = WindowManager(
    files: map<string, FileManager>,
    bandList: seq<(string, nat)>)      // BandList rows: file name and band count

  /** A selection in the band list: one band for a greyscale image, or three
      bands for an RGB image, of the file named. */
  datatype Selection =
    | BandSelected(file: string, index: nat)
    | RgbSelected(file: string, red: nat, green: nat, blue: nat)

  /** What a selection asks the file's FileManager to open. */
  datatype Opened = Opened(file: string, kind: WindowSets.ImageKind, at: Placement)

  const Empty := WindowManager(map[], [])

  function Names(rows: seq<(string, nat)>): (ns: seq<string>)
    ensures |ns| == |rows| && forall i :: 0 <= i < |rows| ==> ns[i] == rows[i].0
  {
    if |rows| == 0 then [] else Names(rows[..|rows| - 1]) + [rows[|rows| - 1].0]
  }

  /** The band list shows each open file exactly once, and only open files. */
  ghost predicate Listed(wm: WindowManager) {
    && (forall i, j :: 0 <= i < j < |wm.bandList| ==> wm.bandList[i].0 != wm.bandList[j].0)
    && (forall name :: name in wm.files <==> name in Names(wm.bandList))
    && (forall name :: name in wm.files ==> wm.files[name].name == name)
  }

  /** `WindowManager.add_file`: a file whose name is already open is ignored;
      otherwise it gets a FileManager with no window sets and a row in the
      band list. */
  function AddFile(wm: WindowManager, name: string, bandCount: nat): (wm': WindowManager)
    ensures name in wm.files ==> wm' == wm
    ensures name !in wm.files ==>
      && wm'.files == wm.files[name := FileManager(name, bandCount, [])]
      && wm'.bandList == wm.bandList + [(name, bandCount)]
  {
    if name in wm.files then wm
    else WindowManager(wm.files[name := FileManager(name, bandCount, [])],
                       wm.bandList + [(name, bandCount)])
  }

  /** `__create_window_set`: 25 pixels from the top; 300 from the left for the
      first set, otherwise 25 pixels right of the last set's main window. */
  function CreateWindowSet(fm: FileManager, id: WsId, geometry: WsId -> Rect)
    : (r: (FileManager, Placement))
    ensures r.0 == fm.(sets := fm.sets + [id])
    ensures r.1.y == 25
    ensures |fm.sets| == 0 ==> r.1.x == 300
    ensures |fm.sets| > 0 ==>
      var last := geometry(fm.sets[|fm.sets| - 1]);
      r.1.x == last.x + last.width + 25
  {
    var x :=
      if |fm.sets| == 0 then 300
      else
        var rect := geometry(fm.sets[|fm.sets| - 1]);
        rect.x + rect.width + 25;
    (fm.(sets := fm.sets + [id]), Placement(x, 25))
  }

  /** `list.index`: the position of the first occurrence. */
  function FirstIndex(s: seq<WsId>, id: WsId): (k: nat)
    requires id in s
    ensures k < |s| && s[k] == id && id !in s[..k]
  {
    if s[0] == id then 0
    else
      var k := 1 + FirstIndex(s[1..], id);
      assert s[..k] == [s[0]] + s[1..][..k - 1];
      k
  }

  /** `list.remove`: drops the first occurrence, keeping the order of the
      rest; ValueError when absent. */
  function RemoveFirst(s: seq<WsId>, id: WsId): (r: Result<seq<WsId>>)
    ensures r.Err? <==> id !in s
    ensures r.Err? ==> r.error == ValueError
    ensures r.Ok? ==> |r.value| == |s| - 1 && multiset(r.value) == multiset(s) - multiset{id}
    ensures r.Ok? ==> r.value == s[..FirstIndex(s, id)] + s[FirstIndex(s, id) + 1..]
  {
    if id !in s then Err(ValueError)
    else
      var k := FirstIndex(s, id);
      assert s == s[..k] + [s[k]] + s[k + 1..];
      Ok(s[..k] + s[k + 1..])
  }

  /** `__handle_windowset_closed`: the closed set leaves the file's list. */
  function WindowSetClosed(fm: FileManager, id: WsId): (r: Result<FileManager>)
    ensures r.Err? <==> id !in fm.sets
    ensures r.Ok? ==> r.value.name == fm.name && r.value.bandCount == fm.bandCount
    ensures r.Ok? ==> multiset(r.value.sets) == multiset(fm.sets) - multiset{id}
    ensures r.Ok? ==> r.value.sets == fm.sets[..FirstIndex(fm.sets, id)] + fm.sets[FirstIndex(fm.sets, id) + 1..]
  {
    match RemoveFirst(fm.sets, id)
    case Err(e) => Err(e)
    case Ok(rest) => Ok(fm.(sets := rest))
  }

  /** `__handle_band_select` and `__handle_rgb_select`: a selection on an open
      file opens a window set of that file (greyscale for one band, RGB for
      three) placed after its last one; one naming no open file does nothing. */
  function Route(wm: WindowManager, sel: Selection, id: WsId, geometry: WsId -> Rect)
    : (r: Option<(WindowManager, Opened)>)
    ensures r.None? <==> sel.file !in wm.files
    ensures r.Some? ==>
      && r.value.0.bandList == wm.bandList
      && r.value.0.files.Keys == wm.files.Keys
      && r.value.0.files[sel.file].sets == wm.files[sel.file].sets + [id]
      && (forall f :: f in wm.files && f != sel.file ==> r.value.0.files[f] == wm.files[f])
      && r.value.1.file == sel.file
      && (r.value.1.kind == WindowSets.RgbImage <==> sel.RgbSelected?)
  {
    if sel.file !in wm.files then None
    else
      var (fm', at) := CreateWindowSet(wm.files[sel.file], id, geometry);
      var kind := if sel.RgbSelected? then WindowSets.RgbImage else WindowSets.GreyImage;
      Some((wm.(files := wm.files[sel.file := fm']), Opened(sel.file, kind, at)))
  }

  // ---------------------------------------------------------------------
  // Properties

  /** Adding a file twice is the same as adding it once. */
  lemma AddFileIdempotent(wm: WindowManager, name: string, bandCount: nat, other: nat)
    ensures AddFile(AddFile(wm, name, bandCount), name, other) == AddFile(wm, name, bandCount)
  {
  }

  /** `add_file` keeps the band list and the file registry in step. */
  lemma AddFileKeepsListed(wm: WindowManager, name: string, bandCount: nat)
    requires Listed(wm)
    ensures Listed(AddFile(wm, name, bandCount))
    ensures name in AddFile(wm, name, bandCount).files
  {
    if name !in wm.files {
      var wm' := AddFile(wm, name, bandCount);
      assert Names(wm'.bandList) == Names(wm.bandList) + [name];
      forall n
        ensures n in wm'.files <==> n in Names(wm'.bandList)
      {
      }
    }
  }

  /** Opening a window set and then closing it leaves the file manager as it
      was. */
  lemma CreateThenClose(fm: FileManager, id: WsId, geometry: WsId -> Rect)
    requires id !in fm.sets
    ensures WindowSetClosed(CreateWindowSet(fm, id, geometry).0, id) == Ok(fm)
  {
    RemoveLast(fm.sets, id);
  }

  /** Removing a value that occurs only at the end removes the end. */
  lemma RemoveLast(s: seq<WsId>, id: WsId)
    requires id !in s
    ensures RemoveFirst(s + [id], id) == Ok(s)
  {
    var t := s + [id];
    var k := FirstIndex(t, id);
    assert forall j :: 0 <= j < |s| ==> t[j] == s[j];
    assert k == |s|;
    assert t[..k] + t[k + 1..] == s;
  }

  /** Window sets of a file cascade to the right: while every set's main
      window stays where it was put and keeps a positive width, each new set
      starts strictly right of the one opened before it. */
  lemma CascadesRight(fm: FileManager, id: WsId, geometry: WsId -> Rect)
    requires |fm.sets| > 0 && geometry(fm.sets[|fm.sets| - 1]).width > 0
    ensures CreateWindowSet(fm, id, geometry).1.x > geometry(fm.sets[|fm.sets| - 1]).x + 25
  {
  }
}
