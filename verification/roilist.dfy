/** RegionOfInterestControl: the table inside the shared region list window.
    Its state is the ordered list of region handles (one per table row), the
    row counter kept beside it, and the row picked by the last click on a
    colour cell. Its signals are returned as ListEvent values. */
module RoiList {
  import opened Base
  import Regions

  datatype Control = Control(regions: seq<RegionId>, rows: int, selected: Option<nat>)

  /** The events the table emits, each naming the region of a row. */
  datatype ListEvent =
    | ToggleEvent(region: RegionId)
    | StatsEvent(region: RegionId)
    | SaveEvent(region: RegionId)
    | CloseEvent(region: RegionId, row: int)
    | NameEvent(region: RegionId)

  /** The entries of the pop-up menu. */
  datatype MenuAction = ToggleAction | StatsAction | SaveAction | CloseAction

  /** A freshly built control: no rows, nothing selected. */
  const Empty := Control([], 0, None)

  /** The row counter agrees with the list of regions. */
  predicate Consistent(c: Control) {
    c.rows == |c.regions|
  }

  /** `add_item`: the region becomes the new last row. */
  function AddItem(c: Control, r: RegionId): (c': Control)
    ensures |c'.regions| == |c.regions| + 1 && c'.regions[|c.regions|] == r
    ensures c'.regions[..|c.regions|] == c.regions
    ensures c'.rows == c.rows + 1 && c'.selected == c.selected
  {
    c.(regions := c.regions + [r], rows := c.rows + 1)
  }

  /** `remove_all`: drops every row; the selection is left as it was. */
  function RemoveAll(c: Control): (c': Control)
    ensures c'.regions == [] && c'.rows == 0 && c'.selected == c.selected
  {
    c.(regions := [], rows := 0)
  }

  /** `remove(event)`: deletes the row the close event names, with Python list
      indexing (a row outside the list raises IndexError), and drops the selection. */
  function Remove(c: Control, row: int): (r: Result<Control>)
    ensures r.Ok? <==> -|c.regions| <= row < |c.regions|
    ensures r.Err? ==> r.error == IndexError
    ensures r.Ok? ==>
      var i := PyIndex(|c.regions|, row).value;
      r.value == Control(c.regions[..i] + c.regions[i + 1..], c.rows - 1, None)
  {
    match PyIndex(|c.regions|, row)
    case None => Err(IndexError)
    case Some(i) => Ok(Control(c.regions[..i] + c.regions[i + 1..], c.rows - 1, None))
  }

  /** `__handle_cell_clicked`: a click selects its row only in the colour
      column and only on a row that holds a region. */
  function CellClicked(c: Control, row: int, column: int): (c': Control)
    ensures c'.regions == c.regions && c'.rows == c.rows
    ensures column == 0 && 0 <= row < |c.regions| ==> c'.selected == Some(row as nat)
    ensures !(column == 0 && 0 <= row < |c.regions|) ==> c' == c
  {
    if column == 0 && -1 < row < |c.regions| then c.(selected := Some(row as nat)) else c
  }

  /** A menu handler: reads the selected row's region (no selection is a
      TypeError, a stale row an IndexError), emits the action's event and, for
      every action but Close, clears the selection. */
  function Menu(c: Control, action: MenuAction): (r: Result<(Control, ListEvent)>)
    ensures r.Ok? <==> c.selected.Some? && c.selected.value < |c.regions|
    ensures c.selected.None? ==> r == Err(TypeError)
    ensures c.selected.Some? && c.selected.value >= |c.regions| ==> r == Err(IndexError)
    ensures r.Ok? ==> r.value.0.regions == c.regions && r.value.0.rows == c.rows
    ensures r.Ok? ==> r.value.1.region == c.regions[c.selected.value]
    ensures r.Ok? ==> Emits(action, r.value.1)
    ensures r.Ok? && action == CloseAction ==>
      r.value.0 == c && r.value.1.row == c.selected.value
    ensures r.Ok? && action != CloseAction ==> r.value.0.selected.None?
  {
    match c.selected
    case None => Err(TypeError)
    case Some(i) =>
      if i < |c.regions| then
        var region := c.regions[i];
        match action
        case ToggleAction => Ok((c.(selected := None), ToggleEvent(region)))
        case StatsAction => Ok((c.(selected := None), StatsEvent(region)))
        case SaveAction => Ok((c.(selected := None), SaveEvent(region)))
        case CloseAction => Ok((c, CloseEvent(region, i)))
      else Err(IndexError)
  }

  /** The event kind that belongs to each menu entry. */
  predicate Emits(action: MenuAction, e: ListEvent) {
    match action
    case ToggleAction => e.ToggleEvent?
    case StatsAction => e.StatsEvent?
    case SaveAction => e.SaveEvent?
    case CloseAction => e.CloseEvent?
  }

  /** `__handle_cell_changed`: an edit in the name column renames that row's
      region to the cell text and emits a name event; other columns do nothing. */
  function CellChanged(c: Control, st: Regions.Store, row: int, column: int, text: string)
    : (r: Result<(Regions.Store, Option<ListEvent>)>)
    ensures column != 1 ==> r == Ok((st, None))
    ensures column == 1 ==> (r.Ok? <==> -|c.regions| <= row < |c.regions|)
    ensures column == 1 && 0 <= row < |c.regions| ==>
      r.Ok? && r.value.1 == Some(NameEvent(c.regions[row]))
      && Regions.DisplayName(r.value.0, c.regions[row]) == Some(text)
      && forall q :: q != c.regions[row] ==>
           Regions.DisplayName(r.value.0, q) == Regions.DisplayName(st, q)
  {
    if column != 1 then Ok((st, None))
    else
      match PyIndex(|c.regions|, row)
      case None => Err(IndexError)
      case Some(i) => Ok((Regions.Rename(st, c.regions[i], text), Some(NameEvent(c.regions[i]))))
  }

  // ---------------------------------------------------------------------
  // Properties

  /** `remove` on a row inside the list deletes exactly that row's region and
      keeps every other region in its relative order. */
  lemma RemoveRow(c: Control, row: nat)
    requires row < |c.regions|
    ensures Remove(c, row).Ok?
    ensures var c' := Remove(c, row).value;
      && |c'.regions| == |c.regions| - 1
      && c'.rows == c.rows - 1
      && c'.selected.None?
      && (forall j :: 0 <= j < row ==> c'.regions[j] == c.regions[j])
      && (forall j :: row <= j < |c'.regions| ==> c'.regions[j] == c.regions[j + 1])
      && multiset(c'.regions) + multiset{c.regions[row]} == multiset(c.regions)
  {
    var c' := Remove(c, row).value;
    assert c.regions == c.regions[..row] + [c.regions[row]] + c.regions[row + 1..];
  }

  /** `remove` never brings in a region: what is left was already listed. */
  lemma RemoveKeepsOnlyListed(c: Control, row: int)
    requires Remove(c, row).Ok?
    ensures multiset(Remove(c, row).value.regions) <= multiset(c.regions)
    ensures forall x :: x in Remove(c, row).value.regions ==> x in c.regions
  {
    var i := PyIndex(|c.regions|, row).value;
    assert c.regions == c.regions[..i] + [c.regions[i]] + c.regions[i + 1..];
    assert forall x :: x in Remove(c, row).value.regions ==> x in multiset(c.regions);
  }

  /** Every operation of the control keeps the row counter equal to the
      number of regions. */
  lemma OperationsKeepRowCount(c: Control, r: RegionId, row: int, column: int, action: MenuAction)
    requires Consistent(c)
    ensures Consistent(AddItem(c, r))
    ensures Consistent(RemoveAll(c))
    ensures Remove(c, row).Ok? ==> Consistent(Remove(c, row).value)
    ensures Consistent(CellClicked(c, row, column))
    ensures Menu(c, action).Ok? ==> Consistent(Menu(c, action).value.0)
  {
  }
}
