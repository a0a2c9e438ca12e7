/** The spreadsheet pager: a per-chat session map holding an uploaded table and
    a page index, the prev/next/noop button transitions, and the pure
    computation of what one page shows (row window, column, numeric values,
    navigation buttons). Cells are of an arbitrary type `C`; the numeric
    coercion of a cell is a parameter `coerce`. */
module Pager {

  datatype Option<T> = None | Some(value: T)

  /** Rows per page. */
  const PageSize: nat := 100

  /** A decoded spreadsheet with no header row: `width` columns and one
      sequence of cells per row. */
  datatype Table<C> = Table(width: nat, rows: seq<seq<C>>)

  predicate Rectangular<C>(t: Table<C>) {
    forall i :: 0 <= i < |t.rows| ==> |t.rows[i]| == t.width
  }

  /** A DataFrame is empty when it has no rows or no columns. */
  predicate IsEmpty<C>(t: Table<C>) {
    |t.rows| == 0 || t.width == 0
  }

  /** An empty table is exactly one without a single cell. */
  lemma EmptyMeansNoCells<C>(t: Table<C>)
    ensures IsEmpty(t) <==> |t.rows| * t.width == 0
  {
  }

  /** What a chat's session may hold: a rectangular, non-empty table. */
  predicate Storable<C>(t: Table<C>) {
    Rectangular(t) && !IsEmpty(t)
  }

  datatype Session<C> = Session(table: Table<C>, page: nat)

  /** `ceil(rows / PAGE_SIZE)`: the least page count covering every row. */
  function TotalPages(rows: nat): (n: nat)
    ensures n * PageSize >= rows
    ensures n > 0 ==> (n - 1) * PageSize < rows
    ensures n == 0 <==> rows == 0
  {
    (rows + PageSize - 1) / PageSize
  }

  /** The page index stays within the table. */
  predicate PageInRange<C>(s: Session<C>) {
    s.page < TotalPages(|s.table.rows|)
  }

  /** The page's text: the numbers, or the placeholder
      "No valid numbers found in this range." */
  datatype Content = Numbers(values: seq<int>) | NoNumbers

  function ValuesOf(c: Content): seq<int> {
    match c
    case Numbers(vs) => vs
    case NoNumbers => []
  }

  /** What send_page shows: the row window [start, end), the column (and its
      1-based label), the numbers, and the labels of the prev and next
      buttons when they are shown. */
  datatype View = View(
    page: nat, totalPages: nat, totalRows: nat,
    start: nat, end: nat,
    column: nat, columnLabel: nat,
    content: Content,
    prev: Option<nat>, next: Option<nat>)

  function Min(a: int, b: int): int {
    if a <= b then a else b
  }

  /** Column `c` of every row, top to bottom. */
  function Column<C>(t: Table<C>, c: nat): (col: seq<C>)
    requires Rectangular(t) && c < t.width
    ensures |col| == |t.rows|
    ensures forall i :: 0 <= i < |col| ==> col[i] == t.rows[i][c]
  {
    seq(|t.rows|, i requires 0 <= i < |t.rows| => t.rows[i][c])
  }

  /** `pd.to_numeric(..., errors='coerce').dropna().astype('int64')`: the
      cells that coerce to an integer, in order. */
  function Coerced<C>(cells: seq<C>, coerce: C -> Option<int>): (r: seq<int>)
    ensures |r| <= |cells|
    ensures r == [] <==> forall i :: 0 <= i < |cells| ==> coerce(cells[i]) == None
    ensures forall x :: x in r <==> exists i :: 0 <= i < |cells| && coerce(cells[i]) == Some(x)
  {
    if cells == [] then []
    else
      var rest := Coerced(cells[1..], coerce);
      assert forall i :: 1 <= i < |cells| ==> cells[i] == cells[1..][i - 1];
      match coerce(cells[0])
      case Some(x) => [x] + rest
      case None => rest
  }

  /** The end of page `page`'s row window, `min(start + PAGE_SIZE, rows)`:
      the window is non-empty exactly for the pages that exist, holds at most
      a page of rows, and a full page for every page but the last. */
  function WindowEnd(page: nat, rows: nat): (end: nat)
    ensures end <= rows
    ensures page * PageSize < end <==> page < TotalPages(rows)
    ensures page < TotalPages(rows) ==> end - page * PageSize <= PageSize
    ensures page + 1 < TotalPages(rows) ==> end == page * PageSize + PageSize
    ensures page + 1 >= TotalPages(rows) ==> end == rows
  {
    Min(page * PageSize + PageSize, rows)
  }

  /** The column shown: the second when there is one, else the first. */
  function SelectedColumn(width: nat): (c: nat)
    requires width > 0
    ensures c < width
    ensures c == 1 <==> width > 1
  {
    if width > 1 then 1 else 0
  }

  /** The numbers of column `col` in the rows [start, end), in row order. */
  function WindowValues<C>(t: Table<C>, col: nat, start: nat, end: nat, coerce: C -> Option<int>): (vs: seq<int>)
    requires Rectangular(t) && col < t.width && end <= |t.rows|
    ensures vs == [] <==> forall i :: start <= i < end ==> coerce(t.rows[i][col]) == None
    ensures forall x :: x in vs <==> exists i :: start <= i < end && coerce(t.rows[i][col]) == Some(x)
    ensures start < end ==> vs == Coerced(Column(t, col)[start..end], coerce)
    ensures start >= end ==> vs == []
  {
    if start < end then
      var cells := Column(t, col)[start..end];
      assert forall i :: start <= i < end ==> t.rows[i][col] == cells[i - start];
      assert forall k :: 0 <= k < |cells| ==> cells[k] == t.rows[start + k][col];
      Coerced(cells, coerce)
    else []
  }

  /** send_page's computation for a table and a page. The window end is
      clamped to the row count, so a page past the end has an empty window. */
  function Render<C>(t: Table<C>, page: nat, coerce: C -> Option<int>): (v: View)
    requires Rectangular(t) && t.width > 0
    ensures v.page == page && v.totalRows == |t.rows| && v.totalPages == TotalPages(|t.rows|)
    ensures v.start == page * PageSize && v.end <= |t.rows|
    ensures v.start < v.end <==> page < v.totalPages
    ensures page < v.totalPages ==> v.end - v.start <= PageSize
    ensures page + 1 < v.totalPages ==> v.end == v.start + PageSize
    ensures page + 1 >= v.totalPages ==> v.end == v.totalRows
    ensures v.column < t.width && v.columnLabel == v.column + 1
    ensures v.column == 1 <==> t.width > 1
    ensures v.content == NoNumbers <==>
      forall i :: v.start <= i < v.end ==> coerce(t.rows[i][v.column]) == None
    ensures forall x :: x in ValuesOf(v.content) <==>
      exists i :: v.start <= i < v.end && coerce(t.rows[i][v.column]) == Some(x)
    ensures v.start < v.end ==> ValuesOf(v.content) == Coerced(Column(t, v.column)[v.start..v.end], coerce)
    ensures v.prev.Some? <==> page > 0
    ensures v.prev.Some? ==> v.prev.value == v.start == (page - 1) * PageSize + PageSize
    ensures v.next.Some? <==> page + 1 < v.totalPages
    ensures v.next.Some? ==> v.next.value == v.end + 1 == (page + 1) * PageSize + 1
  {
    var totalRows := |t.rows|;
    var totalPages := TotalPages(totalRows);
    var start := page * PageSize;
    var end := WindowEnd(page, totalRows);
    var col := SelectedColumn(t.width);
    var colLabel := if t.width > 1 then 2 else 1;
    var values := WindowValues(t, col, start, end, coerce);
    View(
      page, totalPages, totalRows, start, end, col, colLabel,
      if values == [] then NoNumbers else Numbers(values),
      if page > 0 then Some(start) else None,
      if page < totalPages - 1 then Some(end + 1) else None)
  }

  /** The callback data the page buttons carry. */
  datatype Callback = Prev | Next | Noop

  /** page_nav's update of the page: prev only above page 0, next always. */
  function Step<C>(s: Session<C>, data: Callback): (s': Session<C>)
    ensures s'.table == s.table
    ensures data == Prev ==> s'.page == if s.page > 0 then s.page - 1 else 0
    ensures data == Next ==> s'.page == s.page + 1
    ensures data == Noop ==> s' == s
  {
    if data == Prev && s.page > 0 then s.(page := s.page - 1)
    else if data == Next then s.(page := s.page + 1)
    else s
  }

  datatype LoadReply = FileEmpty | Loaded(view: View)

  datatype NavReply = CurrentPage | SessionExpired | Shown(view: View)

  /** The in-memory `excel_data` map from chat id to session. */
  class ExcelStore<C> {
    var sessions: map<int, Session<C>>

    ghost predicate Valid()
      reads this
    {
      forall id :: id in sessions ==> Storable(sessions[id].table)
    }

    constructor ()
      ensures Valid() && sessions == map[]
    {
      sessions := map[];
    }

    /** process_excel after decoding: an empty table is refused and changes
        nothing; otherwise the chat's session is replaced by the table at
        page 0 and that page is shown. */
    method ProcessExcel(chatId: int, table: Table<C>, coerce: C -> Option<int>) returns (reply: LoadReply)
      requires Valid() && Rectangular(table)
      modifies this
      ensures Valid()
      ensures IsEmpty(table) ==> reply == FileEmpty && sessions == old(sessions)
      ensures !IsEmpty(table) ==>
        && sessions == old(sessions)[chatId := Session(table, 0)]
        && PageInRange(sessions[chatId])
        && reply == Loaded(Render(table, 0, coerce))
    {
      if IsEmpty(table) {
        return FileEmpty;
      }
      sessions := sessions[chatId := Session(table, 0)];
      var view := SendPage(chatId, coerce);
      reply := Loaded(view.value);
    }

    /** send_page: nothing for a chat without a session, otherwise the
        rendering of its current page. */
    method SendPage(chatId: int, coerce: C -> Option<int>) returns (view: Option<View>)
      requires Valid()
      ensures view.None? <==> chatId !in sessions
      ensures chatId in sessions ==>
        view == Some(Render(sessions[chatId].table, sessions[chatId].page, coerce))
    {
      if chatId !in sessions {
        return None;
      }
      var store := sessions[chatId];
      view := Some(Render(store.table, store.page, coerce));
    }

    /** page_nav: noop is answered before the session is looked up; a chat
        without a session is told it expired; otherwise the page moves and
        the new page is shown. Other chats are never touched. */
    method PageNav(chatId: int, data: Callback, coerce: C -> Option<int>) returns (reply: NavReply)
      requires Valid()
      modifies this
      ensures Valid()
      ensures data == Noop ==> reply == CurrentPage && sessions == old(sessions)
      ensures data != Noop && chatId !in old(sessions) ==>
        reply == SessionExpired && sessions == old(sessions)
      ensures data != Noop && chatId in old(sessions) ==>
        && sessions == old(sessions)[chatId := Step(old(sessions)[chatId], data)]
        && reply == Shown(Render(sessions[chatId].table, sessions[chatId].page, coerce))
      ensures forall id :: id != chatId ==> (id in sessions <==> id in old(sessions))
      ensures forall id :: id != chatId && id in sessions ==> sessions[id] == old(sessions)[id]
    {
      if data == Noop {
        return CurrentPage;
      }
      if chatId !in sessions {
        return SessionExpired;
      }
      var store := sessions[chatId];
      if data == Prev && store.page > 0 {
        sessions := sessions[chatId := store.(page := store.page - 1)];
      } else if data == Next {
        sessions := sessions[chatId := store.(page := store.page + 1)];
      }
      var view := SendPage(chatId, coerce);
      reply := Shown(view.value);
    }
  }

  /** A stored table has at least one page, and a fresh load is on it. */
  lemma LoadedIsInRange<C>(t: Table<C>)
    requires Storable(t)
    ensures TotalPages(|t.rows|) >= 1
    ensures PageInRange(Session(t, 0))
  {
  }

  /** From a page in range, prev stays in range, and next stays in range
      exactly when the page shows a next button. */
  lemma StepKeepsRangeIff<C>(s: Session<C>, data: Callback, coerce: C -> Option<int>)
    requires Storable(s.table) && PageInRange(s)
    ensures PageInRange(Step(s, data)) <==>
      (data != Next || Render(s.table, s.page, coerce).next.Some?)
  {
  }

  /** A page past the end (reached by pressing a next button kept on an older
      message) has an empty window: the placeholder is shown, there is no
      next button, and the prev button still is. */
  lemma PastTheEnd<C>(s: Session<C>, coerce: C -> Option<int>)
    requires Storable(s.table) && !PageInRange(s)
    ensures var v := Render(s.table, s.page, coerce);
      && v.start >= v.totalRows && v.end == v.totalRows
      && v.content == NoNumbers && v.next == None && v.prev.Some?
  {
    var v := Render(s.table, s.page, coerce);
    assert v.start >= |s.table.rows| by {
      assert s.page >= TotalPages(|s.table.rows|);
    }
  }

  /** The stale next button: the last page has no next button, but a next
      pressed on an older message still moves past it. */
  lemma StaleNextLeavesRange<C>(s: Session<C>, coerce: C -> Option<int>)
    requires Storable(s.table) && s.page == TotalPages(|s.table.rows|) - 1
    ensures Render(s.table, s.page, coerce).next == None
    ensures !PageInRange(Step(s, Next))
    ensures Render(s.table, Step(s, Next).page, coerce).content == NoNumbers
  {
    PastTheEnd(Step(s, Next), coerce);
  }

  /** The numbers shown on pages 0 .. k-1, in page order. */
  function Scroll<C>(t: Table<C>, k: nat, coerce: C -> Option<int>): seq<int>
    requires Rectangular(t) && t.width > 0
  {
    if k == 0 then [] else Scroll(t, k - 1, coerce) + ValuesOf(Render(t, k - 1, coerce).content)
  }

  lemma {:induction false} CoercedAppend<C>(a: seq<C>, b: seq<C>, coerce: C -> Option<int>)
    ensures Coerced(a + b, coerce) == Coerced(a, coerce) + Coerced(b, coerce)
  {
    if a == [] {
      assert a + b == b;
    } else {
      assert (a + b)[1..] == a[1..] + b;
      CoercedAppend(a[1..], b, coerce);
    }
  }

  /** One more page adds that page's window of numbers. */
  lemma ScrollStep<C>(t: Table<C>, k: nat, coerce: C -> Option<int>)
    requires Rectangular(t) && t.width > 0 && k > 0
    ensures Scroll(t, k, coerce) == Scroll(t, k - 1, coerce) +
      WindowValues(t, SelectedColumn(t.width), (k - 1) * PageSize, WindowEnd(k - 1, |t.rows|), coerce)
  {
  }

  lemma PageBounds(k: nat, rows: nat)
    requires 0 < k <= TotalPages(rows)
    ensures (k - 1) * PageSize < WindowEnd(k - 1, rows) == Min(k * PageSize, rows)
    ensures Min((k - 1) * PageSize, rows) == (k - 1) * PageSize
  {
  }

  lemma PrefixSplit<T>(s: seq<T>, a: nat, b: nat)
    requires a <= b <= |s|
    ensures s[..b] == s[..a] + s[a..b]
  {
  }

  /** Paging from the first page to page k shows, in order, exactly the
      numbers of the selected column's first min(k * PageSize, rows) rows. */
  lemma {:induction false} ScrollPrefix<C>(t: Table<C>, k: nat, coerce: C -> Option<int>)
    requires Rectangular(t) && t.width > 0 && k <= TotalPages(|t.rows|)
    ensures Scroll(t, k, coerce) ==
      Coerced(Column(t, SelectedColumn(t.width))[..Min(k * PageSize, |t.rows|)], coerce)
  {
    var col := SelectedColumn(t.width);
    var column := Column(t, col);
    if k == 0 {
      assert column[..0] == [];
    } else {
      ScrollPrefix(t, k - 1, coerce);
      ScrollStep(t, k, coerce);
      var a := (k - 1) * PageSize;
      var b := WindowEnd(k - 1, |t.rows|);
      PageBounds(k, |t.rows|);
      PrefixSplit(column, a, b);
      CoercedAppend(column[..a], column[a..b], coerce);
    }
  }

  /** Paging through every page shows every number of the selected column
      exactly once, in row order. */
  lemma ScrollAll<C>(t: Table<C>, coerce: C -> Option<int>)
    requires Storable(t)
    ensures Scroll(t, TotalPages(|t.rows|), coerce) == Coerced(Column(t, SelectedColumn(t.width)), coerce)
  {
    var column := Column(t, SelectedColumn(t.width));
    var n := TotalPages(|t.rows|);
    ScrollPrefix(t, n, coerce);
    assert Min(n * PageSize, |t.rows|) == |t.rows|;
    assert column[..|t.rows|] == column;
  }

  /** 250 rows make three pages; the last shows rows 201 to 250 and no next
      button, the first no prev button. */
  lemma ThreePages<C>(t: Table<C>, coerce: C -> Option<int>)
    requires Storable(t) && |t.rows| == 250
    ensures TotalPages(250) == 3
    ensures Render(t, 0, coerce).prev == None && Render(t, 0, coerce).next == Some(101)
    ensures Render(t, 1, coerce).prev == Some(100) && Render(t, 1, coerce).next == Some(201)
    ensures Render(t, 2, coerce).start == 200 && Render(t, 2, coerce).end == 250
    ensures Render(t, 2, coerce).next == None
  {
  }
}
