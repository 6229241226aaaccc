/**
 * History navigation in the app: keyset pagination driven by three fields of
 * the Streamlit session state, `pagination_last_id`, `pagination_history` and
 * `pagination_has_more`.
 *
 * `pagination_last_id` is the id of the last row of the previous page (None on
 * the first page), `pagination_history` the stack of earlier such ids, and
 * `pagination_has_more` whether the "next" button is enabled. The store
 * queries the app calls for the page contents and for `has_more_records` are
 * not defined by the history module, so the page shown and the answer of
 * `has_more_records` enter as inputs.
 */
module Pagination {
  import opened Wrappers

  /** The three session-state fields. History entries are ids, never None. */
  datatype Cursor = Cursor(lastId: Option<int>, history: seq<int>, hasMore: bool)

  /** The initial and the reset state: first page, empty stack, no next page. */
  const Start: Cursor := Cursor(None, [], false)

  /** The invariant: on the first page the stack is empty. */
  ghost predicate Consistent(c: Cursor) {
    c.lastId.None? ==> c.history == []
  }

  /** `current_page` (lines 146-150): 1 on the first page, otherwise the number
      of stacked ids plus two. */
  function PageNumber(c: Cursor): (n: nat)
    ensures n >= 1
    ensures n == 1 <==> c.lastId.None?
  {
    if c.lastId.None? then 1 else |c.history| + 2
  }

  /** `current_last_id`: the id of the last row of the page shown, if any. */
  function LastIdOf(pageIds: seq<int>): (r: Option<int>)
    ensures r.None? <==> pageIds == []
    ensures r.Some? ==> r.value == pageIds[|pageIds| - 1]
  {
    if |pageIds| == 0 then None else Some(pageIds[|pageIds| - 1])
  }

  /** The state after the history page is shown: `pagination_has_more` is the
      store's answer for the page's last id, or false for an empty page. */
  function AfterLoad(c: Cursor, pageIds: seq<int>, hasMoreRecords: int -> bool): (d: Cursor)
    ensures d.lastId == c.lastId && d.history == c.history
    ensures pageIds == [] ==> !d.hasMore
    ensures pageIds != [] ==> d.hasMore == hasMoreRecords(pageIds[|pageIds| - 1])
  {
    var cur := LastIdOf(pageIds);
    c.(hasMore := if cur.Some? then hasMoreRecords(cur.value) else false)
  }

  /** `go_to_next_page`: nothing without a current last id; otherwise push the
      old last id when there is one, and move to the current last id. */
  function NextPage(c: Cursor, currentLastId: Option<int>): (d: Cursor)
    ensures currentLastId.None? ==> d == c
    ensures currentLastId.Some? ==> d.lastId == currentLastId && d.hasMore == c.hasMore
    ensures currentLastId.Some? ==> d.history == c.history + (if c.lastId.Some? then [c.lastId.value] else [])
  {
    if currentLastId.None? then c
    else
      var h := if c.lastId.Some? then c.history + [c.lastId.value] else c.history;
      c.(lastId := currentLastId, history := h)
  }

  /** `go_to_previous_page`: pop the stack into the last id, or go back to the
      first page when the stack is empty. */
  function PreviousPage(c: Cursor): (d: Cursor)
    ensures c.history == [] ==> d.lastId.None? && d.history == []
    ensures c.history != [] ==> d.lastId == Some(c.history[|c.history| - 1]) && d.history == c.history[..|c.history| - 1]
    ensures d.hasMore == c.hasMore
  {
    if |c.history| > 0 then
      c.(lastId := Some(c.history[|c.history| - 1]), history := c.history[..|c.history| - 1])
    else
      c.(lastId := None)
  }

  /** Every operation keeps the invariant. */
  lemma OperationsKeepConsistent(c: Cursor, currentLastId: Option<int>, pageIds: seq<int>, hasMoreRecords: int -> bool)
    requires Consistent(c)
    ensures Consistent(Start)
    ensures Consistent(NextPage(c, currentLastId))
    ensures Consistent(PreviousPage(c))
    ensures Consistent(AfterLoad(c, pageIds, hasMoreRecords))
  {
  }

  /** Previous after a successful Next restores the exact prior state. */
  lemma PreviousUndoesNext(c: Cursor, id: int)
    requires Consistent(c)
    ensures PreviousPage(NextPage(c, Some(id))) == c
  {
    var d := NextPage(c, Some(id));
    if c.lastId.Some? {
      assert d.history[..|d.history| - 1] == c.history;
    }
  }

  /** Next moves one page forward; Previous from a later page one page back. */
  lemma PageNumberSteps(c: Cursor, id: int)
    requires Consistent(c)
    ensures PageNumber(NextPage(c, Some(id))) == PageNumber(c) + 1
    ensures PageNumber(c) > 1 ==> PageNumber(PreviousPage(c)) == PageNumber(c) - 1
    ensures PageNumber(c) == 1 ==> PreviousPage(c) == c
  {
  }

  /** Following a sequence of pages: Next with each id in turn. */
  function NextAll(c: Cursor, ids: seq<int>): Cursor {
    if |ids| == 0 then c else NextPage(NextAll(c, ids[..|ids| - 1]), Some(ids[|ids| - 1]))
  }

  /** Pressing Previous n times. */
  function PreviousTimes(c: Cursor, n: nat): Cursor
    decreases n
  {
    if n == 0 then c else PreviousTimes(PreviousPage(c), n - 1)
  }

  /** After k Next steps the invariant still holds and the page number has
      risen by k. */
  lemma {:induction false} NextAllAdvances(c: Cursor, ids: seq<int>)
    requires Consistent(c)
    ensures Consistent(NextAll(c, ids))
    ensures PageNumber(NextAll(c, ids)) == PageNumber(c) + |ids|
  {
    if |ids| > 0 {
      var init := ids[..|ids| - 1];
      NextAllAdvances(c, init);
      PageNumberSteps(NextAll(c, init), ids[|ids| - 1]);
    }
  }

  /** k Previous steps undo k Next steps: navigation forward and back returns
      to the exact page and stack it started from. */
  lemma {:induction false} PreviousTimesUndoesNextAll(c: Cursor, ids: seq<int>)
    requires Consistent(c)
    ensures PreviousTimes(NextAll(c, ids), |ids|) == c
  {
    if |ids| > 0 {
      var init := ids[..|ids| - 1];
      NextAllAdvances(c, init);
      PreviousUndoesNext(NextAll(c, init), ids[|ids| - 1]);
      PreviousTimesUndoesNextAll(c, init);
    }
  }

  /** The session state of one browser session. */
  class PaginationSession {
    var lastId: Option<int>
    var history: seq<int>
    var hasMore: bool

    function State(): Cursor
      reads this
    {
      Cursor(lastId, history, hasMore)
    }

    ghost predicate Valid()
      reads this
    {
      Consistent(State())
    }

    /** Lines 61-66: the fields are created with their initial values. */
    constructor ()
      ensures Valid() && State() == Start
    {
      lastId := None;
      history := [];
      hasMore := false;
    }

    /** `reset_pagination`: back to the first page. */
    method ResetPagination()
      modifies this
      ensures Valid() && State() == Start
    {
      lastId := None;
      history := [];
      hasMore := false;
    }

    /** Lines 109-114: after the page is loaded, record `current_last_id` and
        whether a next page exists. Returns `current_last_id`. */
    method ShowPage(pageIds: seq<int>, hasMoreRecords: int -> bool) returns (currentLastId: Option<int>)
      requires Valid()
      modifies this
      ensures Valid()
      ensures currentLastId == LastIdOf(pageIds)
      ensures State() == AfterLoad(old(State()), pageIds, hasMoreRecords)
    {
      currentLastId := None;
      if |pageIds| > 0 {
        currentLastId := Some(pageIds[|pageIds| - 1]);
        hasMore := hasMoreRecords(currentLastId.value);
      } else {
        hasMore := false;
      }
    }

    /** `go_to_next_page`, with `current_last_id` of the page shown. */
    method GoToNextPage(currentLastId: Option<int>)
      requires Valid()
      modifies this
      ensures Valid()
      ensures State() == NextPage(old(State()), currentLastId)
    {
      if currentLastId.Some? {
        if lastId.Some? {
          history := history + [lastId.value];
        }
        lastId := currentLastId;
      }
    }

    /** `go_to_previous_page`: `pagination_history.pop()` or the first page. */
    method GoToPreviousPage()
      requires Valid()
      modifies this
      ensures Valid()
      ensures State() == PreviousPage(old(State()))
    {
      if |history| > 0 {
        var top := history[|history| - 1];
        history := history[..|history| - 1];
        lastId := Some(top);
      } else {
        lastId := None;
      }
    }
  }
}
