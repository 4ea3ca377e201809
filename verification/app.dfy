/** The list-level state of src/App.tsx: the lists, the selected list, the
    handlers that change them, and the document each handler sends to the
    strict server. Every handler first computes the new lists, then asks the
    server to store `{lists: newLists}` and adopts the new state only when the
    save reports success; `saved` is that report. */
module App {
  import opened Wrappers
  import opened Json
  import opened Seqs
  import opened Todos
  import Text
  import Color
  import StrictServer

  datatype TodoList = TodoList(id: int, name: string, color: string, todos: seq<Todo>)

  /** `lists` and `activeListId` (`None` is `null`). */
  datatype AppState = AppState(lists: seq<TodoList>, activeListId: Option<int>)

  /** The ids of `lists`, in order. */
  function Ids(lists: seq<TodoList>): (r: seq<int>)
    ensures |r| == |lists|
    ensures forall k :: 0 <= k < |lists| ==> r[k] == lists[k].id
  {
    seq(|lists|, k requires 0 <= k < |lists| => lists[k].id)
  }

  /** The selection is empty or names a list that exists. */
  predicate SelectionValid(st: AppState) {
    st.activeListId.None? || st.activeListId.value in Ids(st.lists)
  }

  /** Every list colour has the `#RRGGBB` form the strict server demands. */
  predicate ColorsValid(lists: seq<TodoList>) {
    forall k :: 0 <= k < |lists| ==> Color.ValidColor(lists[k].color)
  }

  /** The adopt-on-success rule: the new state if the save succeeded, the old
      one otherwise. */
  function Commit(st: AppState, next: AppState, saved: bool): (r: AppState)
    ensures saved ==> r == next
    ensures !saved ==> r == st
  {
    if saved then next else st
  }

  // ---------------------------------------------------------------------
  // Handlers

  /** `addList`: `name` is what the prompt returned (`None` when cancelled),
      `id` is `Date.now()`. A non-empty name appends one empty list with the
      default colour and selects it; an empty or cancelled name does nothing. */
  function AddList(st: AppState, name: Option<string>, id: int, saved: bool): (r: AppState)
    ensures name.None? || name.value == "" || !saved ==> r == st
    ensures name.Some? && name.value != "" && saved ==>
      && |r.lists| == |st.lists| + 1 && r.lists[..|st.lists|] == st.lists
      && r.lists[|st.lists|] == TodoList(id, name.value, Color.DefaultColor, [])
      && r.activeListId == Some(id)
  {
    match name
    case Some(n) =>
      if n != "" then
        var newLists := st.lists + [TodoList(id, n, Color.DefaultColor, [])];
        Commit(st, AppState(newLists, Some(id)), saved)
      else st
    case None => st
  }

  /** `updateTodos(updated)`: the todos of the selected list are replaced;
      with no selection nothing changes. */
  function UpdateTodos(st: AppState, updated: seq<Todo>, saved: bool): (r: AppState)
    ensures r.activeListId == st.activeListId
    ensures |r.lists| == |st.lists|
    ensures forall k :: 0 <= k < |r.lists| ==>
      && r.lists[k].id == st.lists[k].id && r.lists[k].name == st.lists[k].name
      && r.lists[k].color == st.lists[k].color
      && r.lists[k].todos == if saved && Some(st.lists[k].id) == st.activeListId then updated else st.lists[k].todos
  {
    var newLists := seq(|st.lists|, k requires 0 <= k < |st.lists| =>
      if Some(st.lists[k].id) == st.activeListId then st.lists[k].(todos := updated) else st.lists[k]);
    Commit(st, AppState(newLists, st.activeListId), saved)
  }

  /** Colour picker change on list `listId`: only that list's colour changes. */
  function Recolor(st: AppState, listId: int, newColor: string, saved: bool): (r: AppState)
    ensures r.activeListId == st.activeListId
    ensures |r.lists| == |st.lists|
    ensures forall k :: 0 <= k < |r.lists| ==>
      && r.lists[k].id == st.lists[k].id && r.lists[k].name == st.lists[k].name
      && r.lists[k].todos == st.lists[k].todos
      && r.lists[k].color == if saved && st.lists[k].id == listId then newColor else st.lists[k].color
  {
    var newLists := seq(|st.lists|, k requires 0 <= k < |st.lists| =>
      if st.lists[k].id == listId then st.lists[k].(color := newColor) else st.lists[k]);
    Commit(st, AppState(newLists, st.activeListId), saved)
  }

  /** Rename of list `listId`; `input` is what the prompt returned. The trimmed
      name is stored when it is not empty; otherwise nothing happens. */
  function Rename(st: AppState, listId: int, input: Option<string>, saved: bool): (r: AppState)
    ensures input.None? || Text.AllWhitespace(input.value) || !saved ==> r == st
    ensures r.activeListId == st.activeListId
    ensures |r.lists| == |st.lists|
    ensures forall k :: 0 <= k < |r.lists| ==>
      && r.lists[k].id == st.lists[k].id && r.lists[k].color == st.lists[k].color
      && r.lists[k].todos == st.lists[k].todos
      && (r.lists[k].name != st.lists[k].name ==> st.lists[k].id == listId && r.lists[k].name == Text.Trim(input.value))
    ensures input.Some? && !Text.AllWhitespace(input.value) && saved ==>
      forall k :: 0 <= k < |r.lists| && st.lists[k].id == listId ==> r.lists[k].name == Text.Trim(input.value)
  {
    match input
    case Some(raw) =>
      var name := Text.Trim(raw);
      if name != "" then
        var newLists := seq(|st.lists|, k requires 0 <= k < |st.lists| =>
          if st.lists[k].id == listId then st.lists[k].(name := name) else st.lists[k]);
        Commit(st, AppState(newLists, st.activeListId), saved)
      else st
    case None => st
  }

  function HasOtherListId(id: int): TodoList -> bool { (l: TodoList) => l.id != id }

  /** The selection after list `listId` is deleted and `remaining` is left:
      unchanged unless the deleted list was selected, in which case the first
      remaining list, or nothing. */
  function FallbackSelection(active: Option<int>, listId: int, remaining: seq<TodoList>): (r: Option<int>)
    ensures active != Some(listId) ==> r == active
    ensures active == Some(listId) && remaining == [] ==> r.None?
    ensures active == Some(listId) && remaining != [] ==> r == Some(remaining[0].id)
  {
    if active == Some(listId) then
      if |remaining| > 0 then Some(remaining[0].id) else None
    else active
  }

  /** Delete of list `listId` after the user answered `confirmed`: removes
      exactly the lists with that id, keeps the rest in order, and moves the
      selection to the first remaining list if the deleted one was selected. */
  function DeleteList(st: AppState, listId: int, confirmed: bool, saved: bool): (r: AppState)
    ensures !confirmed || !saved ==> r == st
    ensures confirmed && saved ==>
      && (forall l :: l in r.lists <==> l in st.lists && l.id != listId)
      && (forall l: TodoList :: l.id != listId ==> multiset(r.lists)[l] == multiset(st.lists)[l])
      && r.activeListId == FallbackSelection(st.activeListId, listId, r.lists)
  {
    if confirmed then
      var newLists := Filter(st.lists, HasOtherListId(listId));
      FilterMultiset(st.lists, HasOtherListId(listId));
      Commit(st, AppState(newLists, FallbackSelection(st.activeListId, listId, newLists)), saved)
    else st
  }

  /** Deleting keeps the surviving lists in their original relative order:
      whatever survives from a prefix comes before whatever survives from the
      rest. */
  lemma DeleteListKeepsOrder(st: AppState, a: seq<TodoList>, b: seq<TodoList>, listId: int)
    requires st.lists == a + b
    ensures DeleteList(st, listId, true, true).lists
         == Filter(a, HasOtherListId(listId)) + Filter(b, HasOtherListId(listId))
  {
    FilterConcat(a, b, HasOtherListId(listId));
  }

  /** Deleting the selected list selects the first list, in the original
      order, whose id differs from the deleted one. */
  lemma DeleteSelectedPicksFirstSurvivor(st: AppState, listId: int, i: nat)
    requires st.activeListId == Some(listId)
    requires i < |st.lists| && st.lists[i].id != listId
    requires forall j :: 0 <= j < i ==> st.lists[j].id == listId
    ensures DeleteList(st, listId, true, true).activeListId == Some(st.lists[i].id)
  {
    FilterFirstKept(st.lists, HasOtherListId(listId), i);
  }

  /** The initial load: `loaded` is the fetched lists, `None` when the fetch
      failed (which shows as an empty document). The first list, if any, is
      selected. */
  function InitialLoad(loaded: Option<seq<TodoList>>): (r: AppState)
    ensures loaded.None? ==> r == AppState([], None)
    ensures loaded.Some? ==> r.lists == loaded.value
    ensures r.activeListId.Some? <==> |r.lists| > 0
    ensures |r.lists| > 0 ==> r.activeListId == Some(r.lists[0].id)
    ensures SelectionValid(r)
  {
    var lists := loaded.GetOr([]);
    AppState(lists, if |lists| > 0 then Some(lists[0].id) else None)
  }

  // ---------------------------------------------------------------------
  // Invariants the handlers keep

  /** A failed save changes nothing, whatever the handler. */
  lemma FailedSaveKeepsState(st: AppState, name: Option<string>, input: Option<string>, id: int,
                             updated: seq<Todo>, color: string, confirmed: bool)
    ensures AddList(st, name, id, false) == st
    ensures UpdateTodos(st, updated, false) == st
    ensures Recolor(st, id, color, false) == st
    ensures Rename(st, id, input, false) == st
    ensures DeleteList(st, id, confirmed, false) == st
  {
  }

  /** Adding a list selects a list that exists, or changes nothing. */
  lemma AddListKeepsSelectionValid(st: AppState, name: Option<string>, id: int, saved: bool)
    requires SelectionValid(st)
    ensures SelectionValid(AddList(st, name, id, saved))
  {
    var a := AddList(st, name, id, saved);
    if a != st {
      assert Ids(a.lists)[|st.lists|] == id;
    }
  }

  /** A state with the same ids and the same selection keeps a valid selection. */
  lemma SameIdsKeepSelectionValid(st: AppState, r: AppState)
    requires SelectionValid(st)
    requires r.activeListId == st.activeListId && |r.lists| == |st.lists|
    requires forall k :: 0 <= k < |r.lists| ==> r.lists[k].id == st.lists[k].id
    ensures SelectionValid(r)
  {
    assert Ids(r.lists) == Ids(st.lists);
  }

  /** Editing the todos, colour or name of a list keeps every id, so the
      selection stays valid. */
  lemma EditsKeepSelectionValid(st: AppState, input: Option<string>, id: int,
                                updated: seq<Todo>, color: string, saved: bool)
    requires SelectionValid(st)
    ensures SelectionValid(UpdateTodos(st, updated, saved))
    ensures SelectionValid(Recolor(st, id, color, saved))
    ensures SelectionValid(Rename(st, id, input, saved))
  {
    SameIdsKeepSelectionValid(st, UpdateTodos(st, updated, saved));
    SameIdsKeepSelectionValid(st, Recolor(st, id, color, saved));
    SameIdsKeepSelectionValid(st, Rename(st, id, input, saved));
  }

  /** After a delete the selection is empty or names a remaining list: the
      fallback picks an existing list, and an unaffected selection survives
      because only lists with the deleted id go. */
  lemma DeleteListKeepsSelectionValid(st: AppState, id: int, confirmed: bool, saved: bool)
    requires SelectionValid(st)
    ensures SelectionValid(DeleteList(st, id, confirmed, saved))
  {
    var d := DeleteList(st, id, confirmed, saved);
    if d != st && d.activeListId.Some? {
      if st.activeListId == Some(id) {
        assert Ids(d.lists)[0] == d.activeListId.value;
      } else {
        var k :| 0 <= k < |st.lists| && Ids(st.lists)[k] == st.activeListId.value;
        assert st.lists[k] in d.lists;
        var j :| 0 <= j < |d.lists| && d.lists[j] == st.lists[k];
        assert Ids(d.lists)[j] == d.activeListId.value;
      }
    }
  }

  /** With valid colours to start with, no handler introduces an invalid one
      (the colour picker must supply a valid colour). */
  lemma HandlersKeepColorsValid(st: AppState, name: Option<string>, input: Option<string>, id: int,
                                updated: seq<Todo>, color: string, confirmed: bool, saved: bool)
    requires ColorsValid(st.lists) && Color.ValidColor(color)
    ensures ColorsValid(AddList(st, name, id, saved).lists)
    ensures ColorsValid(UpdateTodos(st, updated, saved).lists)
    ensures ColorsValid(Recolor(st, id, color, saved).lists)
    ensures ColorsValid(Rename(st, id, input, saved).lists)
    ensures ColorsValid(DeleteList(st, id, confirmed, saved).lists)
  {
    AddListKeepsColorsValid(st, name, id, saved);
    RecolorKeepsColorsValid(st, id, color, saved);
    DeleteListKeepsColorsValid(st, id, confirmed, saved);
  }

  /** A new list gets the default colour, which is valid. */
  lemma AddListKeepsColorsValid(st: AppState, name: Option<string>, id: int, saved: bool)
    requires ColorsValid(st.lists)
    ensures ColorsValid(AddList(st, name, id, saved).lists)
  {
    Color.ColorPatternExamples();
  }

  /** Recolouring with a valid colour keeps every colour valid. */
  lemma RecolorKeepsColorsValid(st: AppState, id: int, color: string, saved: bool)
    requires ColorsValid(st.lists) && Color.ValidColor(color)
    ensures ColorsValid(Recolor(st, id, color, saved).lists)
  {
  }

  /** Deleting only removes lists, so the colours left are valid. */
  lemma DeleteListKeepsColorsValid(st: AppState, id: int, confirmed: bool, saved: bool)
    requires ColorsValid(st.lists)
    ensures ColorsValid(DeleteList(st, id, confirmed, saved).lists)
  {
    var d := DeleteList(st, id, confirmed, saved);
    forall k | 0 <= k < |d.lists| ensures Color.ValidColor(d.lists[k].color) {
      assert d.lists[k] in st.lists;
    }
  }

  /** Deleting the selected one of two lists leaves the other list, selected. */
  lemma DeleteSelectedOfTwo(a: TodoList, b: TodoList)
    requires a.id != b.id
    ensures DeleteList(AppState([a, b], Some(a.id)), a.id, true, true) == AppState([b], Some(b.id))
    ensures DeleteList(AppState([a], Some(a.id)), a.id, true, true) == AppState([], None)
  {
    assert Filter([a, b], HasOtherListId(a.id)) == [b] by {
      assert [a, b][1..] == [b];
      assert [b][1..] == [];
    }
    assert [a][1..] == [];
  }

  // ---------------------------------------------------------------------
  // The document sent to the server

  function EncodeTodo(t: Todo): JsonValue {
    JObj(map["id" := JNum(t.id as real), "text" := JStr(t.text), "completed" := JBool(t.completed)])
  }

  function EncodeList(l: TodoList): JsonValue {
    JObj(map[
      "id" := JNum(l.id as real), "name" := JStr(l.name), "color" := JStr(l.color),
      "todos" := JArr(seq(|l.todos|, j requires 0 <= j < |l.todos| => EncodeTodo(l.todos[j])))])
  }

  /** `{lists: newLists}` as `saveToServer` posts it. */
  function SaveBody(lists: seq<TodoList>): JsonValue {
    Obj1("lists", JArr(seq(|lists|, k requires 0 <= k < |lists| => EncodeList(lists[k]))))
  }

  /** An encoded list has the shape the strict server wants exactly when its
      colour does. */
  lemma EncodedListWellFormed(l: TodoList)
    ensures StrictServer.WellFormedList(EncodeList(l)) <==> Color.ValidColor(l.color)
  {
    var v := EncodeList(l);
    forall j | 0 <= j < |v.fields["todos"].items|
      ensures StrictServer.WellFormedTodo(v.fields["todos"].items[j])
    {
      assert v.fields["todos"].items[j] == EncodeTodo(l.todos[j]);
    }
  }

  /** The strict server stores what the client sends exactly when every list
      colour has the `#RRGGBB` form; ids, names and texts always pass. */
  lemma SaveAcceptedIffColorsValid(lists: seq<TodoList>)
    ensures StrictServer.ValidateData(SaveBody(lists)) <==> ColorsValid(lists)
  {
    var body := SaveBody(lists);
    StrictServer.ValidateDataIff(body);
    var items := body.fields["lists"].items;
    forall k | 0 <= k < |lists|
      ensures StrictServer.WellFormedList(items[k]) <==> Color.ValidColor(lists[k].color)
    {
      assert items[k] == EncodeList(lists[k]);
      EncodedListWellFormed(lists[k]);
    }
    if ColorsValid(lists) {
      assert StrictServer.WellFormedDoc(body);
    } else {
      var k :| 0 <= k < |lists| && !Color.ValidColor(lists[k].color);
      assert !StrictServer.WellFormedList(items[k]);
    }
  }
}
