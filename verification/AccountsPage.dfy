/** The accounts page: pagination of the filtered list, and the selection kept over it. */
module AccountsPage {
  import opened Sets

  datatype Scope = Runtime | Inventory

  datatype Record = Record(id: string, scope: Scope)

  datatype Action = Delete | Restore | Reprobe

  predicate CanRun(r: Record, action: Action) {
    match action
    case Delete => true
    case Restore => r.scope == Inventory
    case Reprobe => true
  }

  // ---------------------------------------------------------------------------------------------
  // Pagination.
  // ---------------------------------------------------------------------------------------------

  function Min(a: int, b: int): int { if a < b then a else b }

  function TotalPages(n: nat, size: nat): nat
    requires size > 0
  {
    var pages := (n + size - 1) / size;
    if pages < 1 then 1 else pages
  }

  /** `list.slice(start, start + size)`, which clamps both ends. */
  function PageSlice<T>(list: seq<T>, page: nat, size: nat): seq<T>
    requires page >= 1
  {
    var start := (page - 1) * size;
    list[Min(start, |list|)..Min(start + size, |list|)]
  }

  function ResolvedPage(current: nat, n: nat, size: nat): nat
    requires size > 0 && current >= 1
  {
    Min(current, TotalPages(n, size))
  }

  /** The numbers shown as "start-end of total". */
  function VisibleRange(current: nat, n: nat, size: nat): (int, int)
    requires size > 0 && current >= 1
  {
    var page := ResolvedPage(current, n, size);
    if n == 0 then (0, 0) else ((page - 1) * size + 1, Min(n, page * size))
  }

  lemma Product(a: int, b: int, size: nat)
    requires a <= b
    ensures a * size <= b * size
    ensures (a + 1) * size == a * size + size
  {
  }

  /** The pages before the last are full and the last one reaches the end. */
  lemma TotalPagesRange(n: nat, size: nat)
    requires size > 0
    ensures n <= TotalPages(n, size) * size
    ensures n > 0 ==> (TotalPages(n, size) - 1) * size < n
  {
    var q := (n + size - 1) / size;
    var r := (n + size - 1) % size;
    assert n + size - 1 == q * size + r && 0 <= r < size;
    if n > 0 {
      assert q >= 1 by {
        if q <= 0 {
          Product(q, 0, size);
          assert false;
        }
      }
      Product(q - 1, q, size);
    } else {
      Product(0, TotalPages(n, size), size);
    }
  }

  /** All pages up to a given one, one after the other. */
  function Pages<T>(list: seq<T>, count: nat, size: nat): seq<T> {
    if count == 0 then [] else Pages(list, count - 1, size) + PageSlice(list, count, size)
  }

  lemma {:induction false} PagesArePrefix<T>(list: seq<T>, count: nat, size: nat)
    ensures Pages(list, count, size) == list[..Min(count * size, |list|)]
    decreases count
  {
    if count > 0 {
      PagesArePrefix(list, count - 1, size);
      Product(count - 1, count, size);
      var a, b := Min((count - 1) * size, |list|), Min(count * size, |list|);
      assert list[..a] + list[a..b] == list[..b];
    }
  }

  /** Concatenating all pages gives back the list. */
  lemma PagesPartition<T>(list: seq<T>, size: nat)
    requires size > 0
    ensures Pages(list, TotalPages(|list|, size), size) == list
  {
    TotalPagesRange(|list|, size);
    PagesArePrefix(list, TotalPages(|list|, size), size);
  }

  /**
   * Whatever the current page and page size, the resolved page is a real page, it is non-empty
   * whenever the list is, and the visible range describes exactly the slice shown.
   */
  lemma VisibleRangeIsExact<T>(list: seq<T>, current: nat, size: nat)
    requires size > 0 && current >= 1
    ensures var page := ResolvedPage(current, |list|, size);
            var (first, last) := VisibleRange(current, |list|, size);
            && 1 <= page <= TotalPages(|list|, size)
            && if list == [] then (first, last) == (0, 0) && PageSlice(list, page, size) == []
               else 1 <= first <= last <= |list| && PageSlice(list, page, size) == list[first - 1..last]
  {
    PageBounds(current, |list|, size);
  }

  /** The resolved page starts within the list, if that has anything, and is one page long. */
  lemma PageBounds(current: nat, n: nat, size: nat)
    requires size > 0 && current >= 1
    ensures var page := ResolvedPage(current, n, size);
            && 1 <= page <= TotalPages(n, size) && page * size == (page - 1) * size + size
            && 0 <= (page - 1) * size && (n > 0 ==> (page - 1) * size < n)
  {
    var page := ResolvedPage(current, n, size);
    TotalPagesRange(n, size);
    Product(page - 1, TotalPages(n, size) - 1, size);
    Product(0, page - 1, size);
  }

  /** The page asked for is shown if it exists, else the last one. */
  lemma ResolvedPageIs(current: nat, n: nat, size: nat)
    requires size > 0 && current >= 1
    ensures ResolvedPage(current, n, size) == if current <= TotalPages(n, size) then current else TotalPages(n, size)
  {
  }

  // ---------------------------------------------------------------------------------------------
  // Selection.
  // ---------------------------------------------------------------------------------------------

  function IdsOf(records: seq<Record>): set<string> { set r | r in records :: r.id }

  /** What the page shows and remembers between renders. */
  datatype View = View(visible: seq<Record>, rowsPerPage: nat, currentPage: nat, selected: set<string>)

  ghost predicate ViewOk(v: View) { v.rowsPerPage > 0 && v.currentPage >= 1 }

  function PageRecords(v: View): seq<Record>
    requires v.rowsPerPage > 0 && v.currentPage >= 1
  {
    PageSlice(v.visible, ResolvedPage(v.currentPage, |v.visible|, v.rowsPerPage), v.rowsPerPage)
  }

  /** Adding or deleting a batch of ids. */
  function Toggled(selected: set<string>, ids: set<string>, value: bool): set<string> {
    if value then selected + ids else selected - ids
  }

  /** The effect after a render with a new list: forget ids that are not in it. */
  function Cleaned(selected: set<string>, visible: seq<Record>): set<string> { selected * IdsOf(visible) }

  datatype Event =
    | ShowList(visible: seq<Record>, resetPage: bool)
    | GoToPage(page: nat)
    | SetRowsPerPage(size: nat)
    | TogglePage(value: bool)
    | ToggleFiltered(value: bool)
    | ToggleRow(row: nat, value: bool)
    | ClearSelection

  /** An event and the render after it; a new list is followed by the cleanup effect. */
  function Step(v: View, e: Event): View
    requires v.rowsPerPage > 0 && v.currentPage >= 1
  {
    match e
    case ShowList(visible, reset) =>
      View(visible, v.rowsPerPage, if reset then 1 else v.currentPage, Cleaned(v.selected, visible))
    case GoToPage(page) => if page >= 1 then v.(currentPage := page) else v
    case SetRowsPerPage(size) => if size > 0 then v.(rowsPerPage := size) else v
    case TogglePage(value) => v.(selected := Toggled(v.selected, IdsOf(PageRecords(v)), value))
    case ToggleFiltered(value) => v.(selected := Toggled(v.selected, IdsOf(v.visible), value))
    case ToggleRow(row, value) =>
      var page := PageRecords(v);
      if row < |page| then v.(selected := Toggled(v.selected, {page[row].id}, value)) else v
    case ClearSelection => v.(selected := {})
  }

  function Run(v: View, events: seq<Event>): (last: View)
    requires v.rowsPerPage > 0 && v.currentPage >= 1
    ensures last.rowsPerPage > 0 && last.currentPage >= 1
    decreases |events|
  {
    if events == [] then v else Run(Step(v, events[0]), events[1..])
  }

  ghost predicate Settled(v: View) { v.selected <= IdsOf(v.visible) }

  lemma PageWithinList(v: View)
    requires ViewOk(v)
    ensures forall r :: r in PageRecords(v) ==> r in v.visible
  {
    VisibleRangeIsExact(v.visible, v.currentPage, v.rowsPerPage);
  }

  lemma StepKeepsSettled(v: View, e: Event)
    requires ViewOk(v) && Settled(v)
    ensures Settled(Step(v, e))
  {
    PageWithinList(v);
    if e.ToggleRow? && e.row < |PageRecords(v)| {
      assert PageRecords(v)[e.row] in PageRecords(v);
    }
  }

  lemma {:induction false} RunStaysSettled(v: View, events: seq<Event>)
    requires ViewOk(v) && Settled(v)
    ensures ViewOk(Run(v, events)) && Settled(Run(v, events))
    decreases |events|
  {
    if events != [] {
      StepKeepsSettled(v, events[0]);
      RunStaysSettled(Step(v, events[0]), events[1..]);
    }
  }

  function SelectedRecords(records: seq<Record>, selected: set<string>): (found: seq<Record>)
    ensures forall r :: r in found <==> r in records && r.id in selected
  {
    if records == [] then []
    else (if records[0].id in selected then [records[0]] else []) + SelectedRecords(records[1..], selected)
  }

  /** Whether the batch restore button is enabled. */
  predicate CanBatchRestore(v: View) {
    var found := SelectedRecords(v.visible, v.selected);
    found != [] && forall r :: r in found ==> CanRun(r, Restore)
  }

  /** The ids that the batch restore sends each belong to a shown inventory record. */
  ghost predicate SendsOnlyInventory(v: View) {
    forall id :: id in v.selected ==> exists r :: r in v.visible && r.id == id && r.scope == Inventory
  }

  /** With the button enabled, only inventory records are sent if and only if the view is settled. */
  lemma RestoreIsSafeIffSettled(v: View)
    requires CanBatchRestore(v)
    ensures SendsOnlyInventory(v) <==> Settled(v)
  {
    if Settled(v) {
      forall id | id in v.selected ensures exists r :: r in v.visible && r.id == id && r.scope == Inventory {
        assert id in IdsOf(v.visible);
        var r :| r in v.visible && r.id == id;
        assert r in SelectedRecords(v.visible, v.selected);
      }
    }
    if SendsOnlyInventory(v) {
      forall id | id in v.selected ensures id in IdsOf(v.visible) {
        var r :| r in v.visible && r.id == id && r.scope == Inventory;
      }
    }
  }

  /** Over every run from an empty selection, an enabled batch restore sends only inventory records. */
  lemma RunRestoresOnlyInventory(visible: seq<Record>, size: nat, events: seq<Event>)
    requires size > 0
    ensures var v := Run(View(visible, size, 1, {}), events);
            CanBatchRestore(v) ==> SendsOnlyInventory(v)
  {
    var start := View(visible, size, 1, {});
    RunStaysSettled(start, events);
    if CanBatchRestore(Run(start, events)) {
      RestoreIsSafeIffSettled(Run(start, events));
    }
  }

  /** Visiting the first pages in turn and toggling each. */
  function PageSweep(count: nat, value: bool): seq<Event> {
    if count == 0 then [] else PageSweep(count - 1, value) + [GoToPage(count), TogglePage(value)]
  }

  lemma {:induction false} RunAppend(v: View, a: seq<Event>, b: seq<Event>)
    requires ViewOk(v)
    ensures Run(v, a + b) == Run(Run(v, a), b)
    decreases |a|
  {
    if a == [] {
      assert a + b == b;
    } else {
      assert (a + b)[1..] == a[1..] + b;
      RunAppend(Step(v, a[0]), a[1..], b);
    }
  }

  lemma IdsAppend(a: seq<Record>, b: seq<Record>)
    ensures IdsOf(a + b) == IdsOf(a) + IdsOf(b)
  {
  }

  lemma {:induction false} SweepToggles(v: View, count: nat, value: bool)
    requires ViewOk(v) && count <= TotalPages(|v.visible|, v.rowsPerPage)
    ensures var last := Run(v, PageSweep(count, value));
            && last.visible == v.visible && last.rowsPerPage == v.rowsPerPage
            && last.selected == Toggled(v.selected, IdsOf(Pages(v.visible, count, v.rowsPerPage)), value)
    decreases count
  {
    if count > 0 {
      var before := Run(v, PageSweep(count - 1, value));
      var earlier, page := Pages(v.visible, count - 1, v.rowsPerPage), PageSlice(v.visible, count, v.rowsPerPage);
      SweepToggles(v, count - 1, value);
      RunAppend(v, PageSweep(count - 1, value), [GoToPage(count), TogglePage(value)]);
      GoAndToggle(before, count, value);
      IdsAppend(earlier, page);
      ToggledTwice(v.selected, IdsOf(earlier), IdsOf(page), value);
    }
  }

  lemma GoAndToggle(v: View, page: nat, value: bool)
    requires ViewOk(v) && 1 <= page <= TotalPages(|v.visible|, v.rowsPerPage)
    ensures Run(v, [GoToPage(page), TogglePage(value)])
         == v.(currentPage := page,
               selected := Toggled(v.selected, IdsOf(PageSlice(v.visible, page, v.rowsPerPage)), value))
  {
    var toggle := [TogglePage(value)];
    var there := v.(currentPage := page);
    assert [GoToPage(page), TogglePage(value)][1..] == toggle;
    assert Run(v, [GoToPage(page), TogglePage(value)]) == Run(there, toggle);
    assert toggle[1..] == [];
    assert Run(there, toggle) == Step(there, TogglePage(value));
    assert ResolvedPage(page, |v.visible|, v.rowsPerPage) == page;
  }

  lemma ToggledTwice(selected: set<string>, a: set<string>, b: set<string>, value: bool)
    ensures Toggled(Toggled(selected, a, value), b, value) == Toggled(selected, a + b, value)
  {
  }

  /** Toggling every page in turn selects, or clears, exactly what toggling all filtered results does. */
  lemma PagesToggleLikeFiltered(v: View, value: bool)
    requires ViewOk(v)
    ensures Run(v, PageSweep(TotalPages(|v.visible|, v.rowsPerPage), value)).selected
         == Step(v, ToggleFiltered(value)).selected
  {
    SweepToggles(v, TotalPages(|v.visible|, v.rowsPerPage), value);
    PagesPartition(v.visible, v.rowsPerPage);
  }

  /** The records that an event is about. */
  ghost predicate Touches(v: View, e: Event, id: string)
    requires ViewOk(v)
  {
    match e
    case TogglePage(_) => exists r :: r in PageRecords(v) && r.id == id
    case ToggleFiltered(_) => exists r :: r in v.visible && r.id == id
    case ToggleRow(row, _) => row < |PageRecords(v)| && PageRecords(v)[row].id == id
    case _ => false
  }

  /**
   * What is selected after an event: toggled ids as the toggle says, ids of a new list if they were, none after
   * clearing, and all others as before.
   */
  lemma SelectedAfter(v: View, e: Event, id: string)
    requires ViewOk(v)
    ensures id in Step(v, e).selected <==>
              match e
              case TogglePage(value) => if Touches(v, e, id) then value else id in v.selected
              case ToggleFiltered(value) => if Touches(v, e, id) then value else id in v.selected
              case ToggleRow(_, value) => if Touches(v, e, id) then value else id in v.selected
              case ShowList(list, _) => id in v.selected && exists r :: r in list && r.id == id
              case ClearSelection => false
              case _ => id in v.selected
  {
  }

  /** What is shown after an event: only a new list changes the list, and only paging changes the page. */
  lemma ShownAfter(v: View, e: Event)
    requires ViewOk(v)
    ensures var v1 := Step(v, e);
            && (v1.visible == if e.ShowList? then e.visible else v.visible)
            && (v1.rowsPerPage == if e.SetRowsPerPage? && e.size > 0 then e.size else v.rowsPerPage)
            && (v1.currentPage == if e.GoToPage? && e.page >= 1 then e.page
                                  else if e.ShowList? && e.resetPage then 1 else v.currentPage)
  {
  }

  /** Toggling every page on leaves every filtered record selected, and toggling every page off leaves none. */
  lemma PageSweepSelects(v: View, value: bool)
    requires ViewOk(v)
    ensures var last := Run(v, PageSweep(TotalPages(|v.visible|, v.rowsPerPage), value));
            && (forall r :: r in v.visible ==> (r.id in last.selected <==> value))
            && forall id :: (forall r :: r in v.visible ==> r.id != id) ==>
                 (id in last.selected <==> id in v.selected)
  {
    PagesToggleLikeFiltered(v, value);
    forall id ensures id in Step(v, ToggleFiltered(value)).selected
                 <==> if Touches(v, ToggleFiltered(value), id) then value else id in v.selected
    {
      SelectedAfter(v, ToggleFiltered(value), id);
    }
  }

  /** Deleting and probing are open to every record; restoring only to those of the inventory. */
  lemma ActionsOf(r: Record)
    ensures CanRun(r, Delete) && CanRun(r, Reprobe) && (CanRun(r, Restore) <==> r.scope == Inventory)
  {
  }

  /** The button is enabled if and only if something shown is selected, and all that is belongs to the inventory. */
  lemma BatchRestoreEnabledIff(v: View)
    ensures CanBatchRestore(v) <==>
              && (exists r :: r in v.visible && r.id in v.selected)
              && (forall r :: r in v.visible && r.id in v.selected ==> r.scope == Inventory)
  {
    var found := SelectedRecords(v.visible, v.selected);
    if found != [] {
      assert found[0] in found;
    }
  }

  // ---------------------------------------------------------------------------------------------
  // The page as it runs.
  // ---------------------------------------------------------------------------------------------

  /** The loop of both toggles: add or delete the ids one by one on a copy of the set. */
  method ToggleEach(selected: set<string>, records: seq<Record>, value: bool) returns (next: set<string>)
    ensures next == Toggled(selected, IdsOf(records), value)
  {
    next := selected;
    for i := 0 to |records|
      invariant next == Toggled(selected, IdsOf(records[..i]), value)
    {
      assert records[..i + 1] == records[..i] + [records[i]];
      IdsAppend(records[..i], [records[i]]);
      assert IdsOf([records[i]]) == {records[i].id};
      if value {
        next := next + {records[i].id};
      } else {
        next := next - {records[i].id};
      }
    }
    assert records[..|records|] == records;
  }

  class Accounts {
    var visible: seq<Record>
    var rowsPerPage: nat
    var currentPage: nat
    var selectedIds: set<string>

    ghost function State(): View
      reads this
    {
      View(visible, rowsPerPage, currentPage, selectedIds)
    }

    constructor (visible: seq<Record>)
      ensures State() == View(visible, 20, 1, {}) && Settled(State())
    {
      this.visible, rowsPerPage, currentPage, selectedIds := visible, 20, 1, {};
    }

    method TogglePageSelection(value: bool)
      requires ViewOk(State())
      modifies this`selectedIds
      ensures State() == Step(old(State()), TogglePage(value))
    {
      selectedIds := ToggleEach(selectedIds, PageRecords(View(visible, rowsPerPage, currentPage, selectedIds)), value);
    }

    method ToggleFilteredSelection(value: bool)
      requires ViewOk(State())
      modifies this`selectedIds
      ensures State() == Step(old(State()), ToggleFiltered(value))
    {
      selectedIds := ToggleEach(selectedIds, visible, value);
    }

    /** A new filtered list and the cleanup effect; an unchanged selection is kept as it is. */
    method ShowRecords(next: seq<Record>, resetPage: bool)
      requires ViewOk(State())
      modifies this
      ensures State() == Step(old(State()), ShowList(next, resetPage)) && Settled(State())
    {
      visible := next;
      if resetPage {
        currentPage := 1;
      }
      var valid := IdsOf(next);
      var cleaned := set id | id in selectedIds && id in valid;
      if |cleaned| != |selectedIds| {
        selectedIds := cleaned;
      } else {
        SameSizeSubset(cleaned, selectedIds);
      }
      assert selectedIds == Cleaned(old(selectedIds), next);
    }

    method ChangeRowsPerPage(size: nat)
      requires ViewOk(State()) && size > 0
      modifies this`rowsPerPage
      ensures State() == Step(old(State()), SetRowsPerPage(size))
    {
      rowsPerPage := size;
    }
  }
}
