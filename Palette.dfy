/** The command palette's state machine, shared by the extension build and the web build: the
    view it is in, the query and selection of the search view, the prompt being filled, the
    editor's form and the in-memory list of prompts, together with the record store and the
    system clipboard it writes to.

    Every handler is specified by a step function on a snapshot of that state (`World`); the
    lemmas about the step functions state what each handler promises, and that every handler
    keeps the in-memory list a faithful mirror of the store. */
module Palette {
  import opened Records
  import opened Placeholders
  import opened Search
  import opened Tags
  import opened PromptLists
  import opened PromptService
  import Rendering
  import Injector

  datatype ViewMode = SEARCH | FILLING | EDITOR

  /** The component's own state. `editorId` is `None` for `null`. */
  datatype View = View(
    mode: ViewMode,
    searchQuery: string,
    selectedIndex: Index,
    activePrompt: Option<Prompt>,
    editorData: PromptForm,
    editorId: Option<string>,
    prompts: seq<Prompt>)

  /** The component's state, the stored records and the system clipboard. */
  datatype World = World(view: View, records: map<string, Prompt>, clipboard: string)

  /** The rows of the search view. */
  function Visible(v: View): seq<Prompt> {
    Filtered(v.prompts, v.searchQuery)
  }

  // ---------------------------------------------------------------------------------------
  // The invariant

  predicate Stored(p: Prompt, records: map<string, Prompt>) {
    p.id in records && records[p.id] == p
  }

  /** The store is keyed by id; the in-memory list holds stored records, each id once; and the
      filling view is open on a stored prompt that has variables. */
  predicate Consistent(w: World) {
    (forall k :: k in w.records ==> w.records[k].id == k)
    && UniqueIds(w.view.prompts)
    && (forall i :: 0 <= i < |w.view.prompts| ==> Stored(w.view.prompts[i], w.records))
    && (w.view.mode == FILLING ==>
          w.view.activePrompt.Some? && HasVariables(w.view.activePrompt.value.content)
          && Stored(w.view.activePrompt.value, w.records))
  }

  // ---------------------------------------------------------------------------------------
  // The handlers as steps

  /** `setSearchQuery(q)`, followed by the effect that selects the first row whenever the
      query has changed. */
  function WithQuery(v: View, q: string): View {
    v.(searchQuery := q, selectedIndex := if q != v.searchQuery then Row(0) else v.selectedIndex)
  }

  /** The reset after a successful copy. */
  function Reset(v: View): View {
    WithQuery(v.(mode := SEARCH, activePrompt := None), "")
  }

  /** `copyToClipboard(text, prompt)`: a failed write changes nothing. A successful one resets
      the palette and, when a prompt was given and the database opens, counts a use of that
      prompt in the store and in the list. */
  function CopyStep(w: World, text: string, prompt: Option<Prompt>, clipboardOk: bool, dbOpened: bool): World {
    if !clipboardOk then w
    else if prompt.Some? && dbOpened then
      var u := Bumped(prompt.value);
      World(Reset(w.view.(prompts := ReplaceById(w.view.prompts, u))), w.records[u.id := u], text)
    else World(Reset(w.view), w.records, text)
  }

  /** `handlePromptSelection(p)`: a template with variables opens the filling view on it, any
      other prompt is copied as it is. */
  function SelectStep(w: World, p: Prompt, clipboardOk: bool, dbOpened: bool): World {
    if HasVariables(p.content) then w.(view := w.view.(activePrompt := Some(p), mode := FILLING))
    else CopyStep(w, p.content, Some(p), clipboardOk, dbOpened)
  }

  /** `openEditor(prompt)`: the editor on a copy of the prompt's form, or on an empty form. */
  function OpenEditorView(v: View, prompt: Option<Prompt>): View {
    match prompt
    case Some(p) => v.(editorData := FormOf(p), editorId := Some(p.id), mode := EDITOR)
    case None => v.(editorData := EmptyForm, editorId := None, mode := EDITOR)
  }

  /** Enter in the search view: the selected row if there is one, else the create command. */
  function EnterStep(w: World, variant: Variant, clipboardOk: bool, dbOpened: bool): World {
    match RowAt(Visible(w.view), w.view.selectedIndex)
    case Some(p) => SelectStep(w, p, clipboardOk, dbOpened)
    case None =>
      if IsCreateCommand(variant, w.view.searchQuery) then w.(view := OpenEditorView(w.view, None)) else w
  }

  /** The window's `keydown` listener. */
  function KeyStep(w: World, variant: Variant, key: string, clipboardOk: bool, dbOpened: bool): World {
    var v := w.view;
    if v.mode != SEARCH then
      if key == "Escape" then w.(view := v.(mode := SEARCH, activePrompt := None)) else w
    else if key == "ArrowDown" then w.(view := v.(selectedIndex := Down(v.selectedIndex, |Visible(v)|)))
    else if key == "ArrowUp" then w.(view := v.(selectedIndex := Up(v.selectedIndex, |Visible(v)|)))
    else if key == "Enter" then EnterStep(w, variant, clipboardOk, dbOpened)
    else if key == "Escape" && v.searchQuery != "" then w.(view := WithQuery(v, ""))
    else w
  }

  /** A click on row `index` of the search view: the row is selected, then handled as Enter
      handles it. */
  function ClickRowStep(w: World, index: nat, clipboardOk: bool, dbOpened: bool): World
    requires index < |Visible(w.view)|
  {
    SelectStep(w.(view := w.view.(selectedIndex := Row(index))), Visible(w.view)[index], clipboardOk, dbOpened)
  }

  /** `handleEditorSave`: nothing without a title and a content. With a (non-empty) editor id
      the listed original is updated in the store and replaced in the list; an id no longer
      listed still closes the editor. Without one the form is added under `freshId` and
      prepended. A failed request leaves the editor open and everything as it was. */
  function SaveStep(w: World, freshId: string, now: int, dbOpened: bool): World {
    var v := w.view;
    var form := v.editorData;
    if form.title == "" || form.content == "" then w
    else if v.editorId.Some? && v.editorId.value != "" then
      match FindById(v.prompts, v.editorId.value)
      case Some(original) =>
        if dbOpened then
          var u := Touched(WithForm(original, form), now);
          World(v.(prompts := ReplaceById(v.prompts, u), mode := SEARCH), w.records[u.id := u], w.clipboard)
        else w
      case None => w.(view := v.(mode := SEARCH))
    else if dbOpened && freshId !in w.records then
      var n := NewRecord(form, freshId, now);
      World(v.(prompts := [n] + v.prompts, mode := SEARCH), w.records[freshId := n], w.clipboard)
    else w
  }

  /** `handleDelete(id)`: after confirmation, the record leaves the store and the list. */
  function DeleteStep(w: World, id: string, confirmed: bool, dbOpened: bool): World {
    if confirmed && dbOpened then
      World(w.view.(prompts := RemoveById(w.view.prompts, id)), w.records - {id}, w.clipboard)
    else w
  }

  // ---------------------------------------------------------------------------------------
  // What the handlers promise

  /** Outside the search view only Escape does anything: it returns to the search view with no
      active prompt and leaves the query, the selection, the editor, the list, the store and
      the clipboard as they were. */
  lemma EscapeOutsideSearch(w: World, variant: Variant, key: string, clipboardOk: bool, dbOpened: bool)
    requires w.view.mode != SEARCH
    ensures var w' := KeyStep(w, variant, key, clipboardOk, dbOpened);
      if key == "Escape" then
        w'.view.mode == SEARCH && w'.view.activePrompt == None
        && w'.view.(mode := w.view.mode, activePrompt := w.view.activePrompt) == w.view
        && w'.records == w.records && w'.clipboard == w.clipboard
      else w' == w
  {
  }

  /** In the search view Escape clears a non-empty query, selecting the first row, and changes
      nothing else; it does nothing to an empty one. */
  lemma EscapeInSearch(w: World, variant: Variant, clipboardOk: bool, dbOpened: bool)
    requires w.view.mode == SEARCH
    ensures var w' := KeyStep(w, variant, "Escape", clipboardOk, dbOpened);
      w'.view.searchQuery == "" && w'.records == w.records
      && (w.view.searchQuery == "" ==> w' == w)
      && (w.view.searchQuery != "" ==> w' == w.(view := w.view.(searchQuery := "", selectedIndex := Row(0))))
  {
  }

  /** With rows on screen and a row selected, the arrows keep the selection on a row, and Up
      from the first row selects the last; neither touches anything else. */
  lemma ArrowsSelectRows(w: World, variant: Variant, clipboardOk: bool, dbOpened: bool)
    requires w.view.mode == SEARCH && InRange(w.view.selectedIndex, |Visible(w.view)|)
    ensures var d := KeyStep(w, variant, "ArrowDown", clipboardOk, dbOpened);
      InRange(d.view.selectedIndex, |Visible(d.view)|) && d.view.(selectedIndex := w.view.selectedIndex) == w.view
      && d == w.(view := d.view) && RowAt(Visible(d.view), d.view.selectedIndex).Some?
    ensures var u := KeyStep(w, variant, "ArrowUp", clipboardOk, dbOpened);
      InRange(u.view.selectedIndex, |Visible(u.view)|) && u.view.(selectedIndex := w.view.selectedIndex) == w.view
      && u == w.(view := u.view)
    ensures w.view.selectedIndex == Row(0) ==>
      KeyStep(w, variant, "ArrowUp", clipboardOk, dbOpened).view.selectedIndex == Row(|Visible(w.view)| - 1)
  {
    ArrowsStayInRange(w.view.selectedIndex.i, |Visible(w.view)|);
  }

  /** Enter on a selected row selects that row's prompt. */
  lemma EnterSelectsRow(w: World, variant: Variant, clipboardOk: bool, dbOpened: bool, p: Prompt)
    requires w.view.mode == SEARCH && RowAt(Visible(w.view), w.view.selectedIndex) == Some(p)
    ensures KeyStep(w, variant, "Enter", clipboardOk, dbOpened) == SelectStep(w, p, clipboardOk, dbOpened)
  {
  }

  /** Enter with no row selected opens an empty editor for a new prompt exactly when the query
      is the build's create command, and otherwise does nothing. */
  lemma EnterWithoutRow(w: World, variant: Variant, clipboardOk: bool, dbOpened: bool)
    requires w.view.mode == SEARCH && RowAt(Visible(w.view), w.view.selectedIndex) == None
    ensures var w' := KeyStep(w, variant, "Enter", clipboardOk, dbOpened);
      (w'.view.mode == EDITOR <==> IsCreateCommand(variant, w.view.searchQuery))
      && (IsCreateCommand(variant, w.view.searchQuery) ==>
            w'.view.editorData == EmptyForm && w'.view.editorId == None && w'.records == w.records)
      && (!IsCreateCommand(variant, w.view.searchQuery) ==> w' == w)
  {
  }

  /** The Chinese create word opens the editor in the extension build only. */
  lemma CreateWordByBuild(w: World, clipboardOk: bool, dbOpened: bool)
    requires w.view.mode == SEARCH && w.view.searchQuery == CreateWordZh
    requires RowAt(Visible(w.view), w.view.selectedIndex) == None
    ensures KeyStep(w, Extension, "Enter", clipboardOk, dbOpened).view.mode == EDITOR
    ensures KeyStep(w, Web, "Enter", clipboardOk, dbOpened) == w
  {
    CreateCommandVariants(CreateWordZh);
  }

  /** Selecting from the search view opens the filling view exactly when the template has a
      variable token, and then on that prompt; otherwise it takes the copy path. */
  lemma SelectFillsIffVariables(w: World, p: Prompt, clipboardOk: bool, dbOpened: bool)
    requires w.view.mode == SEARCH
    ensures var w' := SelectStep(w, p, clipboardOk, dbOpened);
      (w'.view.mode == FILLING <==> HasVariables(p.content))
      && (w'.view.mode == FILLING ==> w'.view.activePrompt == Some(p) && w'.records == w.records)
      && (!HasVariables(p.content) ==> w' == CopyStep(w, p.content, Some(p), clipboardOk, dbOpened))
  {
  }

  /** A failed clipboard write changes nothing; a successful one writes the text, returns to
      the search view with an empty query and no active prompt, and changes only the listed
      record of the used prompt, if any. */
  lemma CopyOutcome(w: World, text: string, prompt: Option<Prompt>, clipboardOk: bool, dbOpened: bool)
    ensures !clipboardOk ==> CopyStep(w, text, prompt, clipboardOk, dbOpened) == w
    ensures var w' := CopyStep(w, text, prompt, clipboardOk, dbOpened);
      clipboardOk ==>
        w'.clipboard == text && w'.view.mode == SEARCH && w'.view.searchQuery == ""
        && w'.view.activePrompt == None && |w'.view.prompts| == |w.view.prompts|
        && w'.view.editorData == w.view.editorData && w'.view.editorId == w.view.editorId
        && (forall i :: 0 <= i < |w.view.prompts| ==>
              w'.view.prompts[i] == (if prompt.Some? && dbOpened && w.view.prompts[i].id == prompt.value.id
                                     then Bumped(prompt.value) else w.view.prompts[i]))
  {
  }

  /** A different query selects the first row of the new list. */
  lemma NewQuerySelectsFirstRow(v: View, q: string)
    requires q != v.searchQuery && Visible(WithQuery(v, q)) != []
    ensures RowAt(Visible(WithQuery(v, q)), WithQuery(v, q).selectedIndex) == Some(Visible(WithQuery(v, q))[0])
  {
  }

  /** Saving without a title or without a content changes nothing. */
  lemma SaveNeedsTitleAndContent(w: World, freshId: string, now: int, dbOpened: bool)
    requires w.view.editorData.title == "" || w.view.editorData.content == ""
    ensures SaveStep(w, freshId, now, dbOpened) == w
  {
  }

  /** Creating puts the new record, with the form's fields, in front of the list. */
  lemma SaveCreatesInFront(w: World, freshId: string, now: int)
    requires w.view.editorData.title != "" && w.view.editorData.content != ""
    requires w.view.editorId == None || w.view.editorId == Some("")
    requires freshId !in w.records
    ensures var w' := SaveStep(w, freshId, now, true);
      w'.view.mode == SEARCH && |w'.view.prompts| == |w.view.prompts| + 1
      && w'.view.prompts[1..] == w.view.prompts
      && FormOf(w'.view.prompts[0]) == w.view.editorData && w'.view.prompts[0].id == freshId
      && w'.records == w.records[freshId := w'.view.prompts[0]]
  {
  }

  /** Updating replaces the listed original in place: the list keeps its length and its ids,
      the record with the edited id gets the form and the new time, the others are unchanged. */
  lemma SaveUpdatesInPlace(w: World, freshId: string, now: int, original: Prompt)
    requires w.view.editorData.title != "" && w.view.editorData.content != ""
    requires w.view.editorId.Some? && w.view.editorId.value != ""
    requires FindById(w.view.prompts, w.view.editorId.value) == Some(original)
    ensures var w' := SaveStep(w, freshId, now, true);
      w'.view.mode == SEARCH && |w'.view.prompts| == |w.view.prompts|
      && (forall i :: 0 <= i < |w.view.prompts| ==> w'.view.prompts[i].id == w.view.prompts[i].id)
      && (forall i :: 0 <= i < |w.view.prompts| && w.view.prompts[i].id != original.id ==>
            w'.view.prompts[i] == w.view.prompts[i])
      && (forall i :: 0 <= i < |w.view.prompts| && w.view.prompts[i].id == original.id ==>
            FormOf(w'.view.prompts[i]) == w.view.editorData && w'.view.prompts[i].updatedAt == now
            && w'.view.prompts[i].createdAt == original.createdAt)
  {
    ReplaceKeepsIds(w.view.prompts, Touched(WithForm(original, w.view.editorData), now));
  }

  /** A save whose request fails leaves everything as it was, the editor open included. */
  lemma SaveFailureKeepsEditor(w: World, freshId: string, now: int, dbOpened: bool)
    requires w.view.editorData.title != "" && w.view.editorData.content != ""
    requires !dbOpened || (w.view.editorId.None? && freshId in w.records)
    requires w.view.editorId.Some? && w.view.editorId.value != "" ==> HasId(w.view.prompts, w.view.editorId.value)
    ensures SaveStep(w, freshId, now, dbOpened) == w
  {
  }

  /** A confirmed delete removes exactly the records with that id and keeps the others in
      order; an unconfirmed one changes nothing. */
  lemma DeleteRemovesId(w: World, id: string, confirmed: bool, dbOpened: bool)
    ensures var w' := DeleteStep(w, id, confirmed, dbOpened);
      (confirmed && dbOpened ==>
        (forall p :: p in w'.view.prompts <==> p in w.view.prompts && p.id != id)
        && IsSubsequence(w'.view.prompts, w.view.prompts) && id !in w'.records)
      && (!confirmed ==> w' == w)
  {
    RemoveKeepsOrder(w.view.prompts, id);
  }

  // ---------------------------------------------------------------------------------------
  // Every handler keeps the invariant

  /** Putting a record into the store and replacing it in the list keeps the list a mirror. */
  lemma PutKeepsMirror(w: World, u: Prompt)
    requires Consistent(w)
    ensures var ps := ReplaceById(w.view.prompts, u);
      var rs := w.records[u.id := u];
      UniqueIds(ps) && forall i :: 0 <= i < |ps| ==> Stored(ps[i], rs)
  {
    ReplaceKeepsIds(w.view.prompts, u);
  }

  lemma CopyKeepsConsistent(w: World, text: string, prompt: Option<Prompt>, clipboardOk: bool, dbOpened: bool)
    requires Consistent(w) && (prompt.Some? ==> Stored(prompt.value, w.records))
    ensures Consistent(CopyStep(w, text, prompt, clipboardOk, dbOpened))
  {
    if clipboardOk && prompt.Some? && dbOpened {
      PutKeepsMirror(w, Bumped(prompt.value));
    }
  }

  lemma SelectKeepsConsistent(w: World, p: Prompt, clipboardOk: bool, dbOpened: bool)
    requires Consistent(w) && Stored(p, w.records)
    ensures Consistent(SelectStep(w, p, clipboardOk, dbOpened))
  {
    if !HasVariables(p.content) {
      CopyKeepsConsistent(w, p.content, Some(p), clipboardOk, dbOpened);
    }
  }

  lemma VisibleAreStored(w: World, idx: Index)
    requires Consistent(w) && RowAt(Visible(w.view), idx).Some?
    ensures Stored(RowAt(Visible(w.view), idx).value, w.records)
  {
    var p := RowAt(Visible(w.view), idx).value;
    assert p in w.view.prompts;
    var i :| 0 <= i < |w.view.prompts| && w.view.prompts[i] == p;
  }

  lemma KeyKeepsConsistent(w: World, variant: Variant, key: string, clipboardOk: bool, dbOpened: bool)
    requires Consistent(w)
    ensures Consistent(KeyStep(w, variant, key, clipboardOk, dbOpened))
  {
    if w.view.mode == SEARCH && key == "Enter" {
      var r := RowAt(Visible(w.view), w.view.selectedIndex);
      if r.Some? {
        VisibleAreStored(w, w.view.selectedIndex);
        SelectKeepsConsistent(w, r.value, clipboardOk, dbOpened);
      }
    }
  }

  lemma ClickRowKeepsConsistent(w: World, index: nat, clipboardOk: bool, dbOpened: bool)
    requires Consistent(w) && index < |Visible(w.view)|
    ensures Consistent(ClickRowStep(w, index, clipboardOk, dbOpened))
  {
    var w1 := w.(view := w.view.(selectedIndex := Row(index)));
    VisibleAreStored(w1, Row(index));
    SelectKeepsConsistent(w1, Visible(w.view)[index], clipboardOk, dbOpened);
  }

  lemma SaveKeepsConsistent(w: World, freshId: string, now: int, dbOpened: bool)
    requires Consistent(w) && w.view.mode == EDITOR
    ensures Consistent(SaveStep(w, freshId, now, dbOpened))
  {
    var v := w.view;
    var form := v.editorData;
    if form.title != "" && form.content != "" {
      if v.editorId.Some? && v.editorId.value != "" {
        var found := FindById(v.prompts, v.editorId.value);
        if found.Some? && dbOpened {
          var o := found.value;
          var i :| 0 <= i < |v.prompts| && v.prompts[i] == o;
          PutKeepsMirror(w, Touched(WithForm(o, form), now));
        }
      } else if dbOpened && freshId !in w.records {
        var n := NewRecord(form, freshId, now);
        var ps := [n] + v.prompts;
        forall i, j | 0 <= i < j < |ps| ensures ps[i].id != ps[j].id {
          if i == 0 {
            assert ps[j] == v.prompts[j - 1];
            assert Stored(v.prompts[j - 1], w.records);
          } else {
            assert ps[i] == v.prompts[i - 1] && ps[j] == v.prompts[j - 1];
          }
        }
        forall i | 0 <= i < |ps| ensures Stored(ps[i], w.records[freshId := n]) {
          if i > 0 {
            assert ps[i] == v.prompts[i - 1];
            assert Stored(v.prompts[i - 1], w.records);
          }
        }
      }
    }
  }

  lemma DeleteKeepsConsistent(w: World, id: string, confirmed: bool, dbOpened: bool)
    requires Consistent(w) && w.view.mode == SEARCH
    ensures Consistent(DeleteStep(w, id, confirmed, dbOpened))
  {
    if confirmed && dbOpened {
      var ps := RemoveById(w.view.prompts, id);
      RemoveKeepsOrder(w.view.prompts, id);
      forall i | 0 <= i < |ps| ensures Stored(ps[i], w.records - {id}) {
        assert ps[i] in w.view.prompts;
        var k :| 0 <= k < |w.view.prompts| && w.view.prompts[k] == ps[i];
      }
    }
  }

  /** A loaded listing of the store is a mirror. */
  lemma LoadKeepsConsistent(w: World, list: seq<Prompt>)
    requires Consistent(w) && IsListing(list, w.records)
    ensures Consistent(w.(view := w.view.(prompts := list)))
  {
    forall i, j | 0 <= i < j < |list| ensures list[i].id != list[j].id {
      assert list[i] in list && list[j] in list;
      if list[i].id == list[j].id {
        assert list[i] == list[j];
        BeforeIsStrictTotal(list[i], list[j], list[i]);
      }
    }
    forall i | 0 <= i < |list| ensures Stored(list[i], w.records) {
      assert list[i] in list;
    }
  }

  // ---------------------------------------------------------------------------------------
  // The component

  class App {
    /** Which build this is: it decides the create command. */
    const variant: Variant
    const store: Store

    var mode: ViewMode
    var searchQuery: string
    var selectedIndex: Index
    var activePrompt: Option<Prompt>
    var editorData: PromptForm
    var editorId: Option<string>
    var prompts: seq<Prompt>
    /** The system clipboard, as far as the palette writes it. */
    var clipboard: string

    function Now(): World
      reads this, store
    {
      World(View(mode, searchQuery, selectedIndex, activePrompt, editorData, editorId, prompts), store.records, clipboard)
    }

    ghost predicate Valid()
      reads this, store
    {
      Consistent(Now())
    }

    /** The palette on mount: the search view, an empty query, the first row, nothing active,
        an empty form and an empty list until the load completes. */
    constructor(variant: Variant, store: Store, clipboard: string)
      requires store.Valid()
      ensures this.variant == variant && this.store == store && Valid()
      ensures Now() == World(View(SEARCH, "", Row(0), None, EmptyForm, None, []), store.records, clipboard)
    {
      this.variant := variant;
      this.store := store;
      mode := SEARCH;
      searchQuery := "";
      selectedIndex := Row(0);
      activePrompt := None;
      editorData := EmptyForm;
      editorId := None;
      prompts := [];
      this.clipboard := clipboard;
    }

    /** `fetchPrompts`: the list becomes the store's listing, newest first. */
    method Load(dbOpened: bool)
      requires Valid()
      modifies this
      ensures Valid()
      ensures dbOpened ==> IsListing(prompts, store.records) && Now() == old(Now()).(view := old(Now()).view.(prompts := prompts))
      ensures !dbOpened ==> Now() == old(Now())
    {
      if dbOpened {
        var list := store.GetAll();
        LoadKeepsConsistent(Now(), list);
        prompts := list;
      }
    }

    /** The search input's `onChange` (and the clear button, with ""). */
    method SetQuery(q: string)
      requires Valid()
      modifies this
      ensures Valid()
      ensures Now() == old(Now()).(view := WithQuery(old(Now()).view, q))
    {
      if q != searchQuery {
        selectedIndex := Row(0);
      }
      searchQuery := q;
    }

    /** `copyToClipboard(text, prompt)`. */
    method CopyToClipboard(text: string, prompt: Option<Prompt>, clipboardOk: bool, dbOpened: bool)
      requires Valid() && (prompt.Some? ==> Stored(prompt.value, store.records))
      modifies this, store
      ensures Valid()
      ensures Now() == CopyStep(old(Now()), text, prompt, clipboardOk, dbOpened)
    {
      CopyKeepsConsistent(Now(), text, prompt, clipboardOk, dbOpened);
      if clipboardOk {
        clipboard := text;
        if prompt.Some? && dbOpened {
          var updated := store.IncrementUsage(prompt.value);
          prompts := ReplaceById(prompts, updated);
        }
        mode := SEARCH;
        SetQuery("");
        activePrompt := None;
      }
    }

    /** `handlePromptSelection(p)`. */
    method SelectPrompt(p: Prompt, clipboardOk: bool, dbOpened: bool)
      requires Valid() && Stored(p, store.records)
      modifies this, store
      ensures Valid()
      ensures Now() == SelectStep(old(Now()), p, clipboardOk, dbOpened)
    {
      SelectKeepsConsistent(Now(), p, clipboardOk, dbOpened);
      if HasVariables(p.content) {
        activePrompt := Some(p);
        mode := FILLING;
      } else {
        CopyToClipboard(p.content, Some(p), clipboardOk, dbOpened);
      }
    }

    /** `openEditor(prompt)`; also the footer's create button, with no prompt. */
    method OpenEditor(prompt: Option<Prompt>)
      requires Valid()
      modifies this
      ensures Valid()
      ensures Now() == old(Now()).(view := OpenEditorView(old(Now()).view, prompt))
    {
      match prompt {
        case Some(p) =>
          editorData := FormOf(p);
          editorId := Some(p.id);
        case None =>
          editorData := EmptyForm;
          editorId := None;
      }
      mode := EDITOR;
    }

    /** The window's `keydown` listener. */
    method KeyDown(key: string, clipboardOk: bool, dbOpened: bool)
      requires Valid()
      modifies this, store
      ensures Valid()
      ensures Now() == KeyStep(old(Now()), variant, key, clipboardOk, dbOpened)
    {
      KeyKeepsConsistent(Now(), variant, key, clipboardOk, dbOpened);
      if mode != SEARCH {
        if key == "Escape" {
          mode := SEARCH;
          activePrompt := None;
        }
        return;
      }
      var n := |Filtered(prompts, searchQuery)|;
      if key == "ArrowDown" {
        selectedIndex := Down(selectedIndex, n);
      } else if key == "ArrowUp" {
        selectedIndex := Up(selectedIndex, n);
      } else if key == "Enter" {
        var row := RowAt(Filtered(prompts, searchQuery), selectedIndex);
        match row {
          case Some(p) =>
            VisibleAreStored(Now(), selectedIndex);
            SelectPrompt(p, clipboardOk, dbOpened);
          case None =>
            if IsCreateCommand(variant, searchQuery) {
              OpenEditor(None);
            }
        }
      } else if key == "Escape" {
        if searchQuery != "" {
          SetQuery("");
        }
      }
    }

    /** A click on row `index` of the search view. */
    method ClickRow(index: nat, clipboardOk: bool, dbOpened: bool)
      requires Valid() && mode == SEARCH && index < |Filtered(prompts, searchQuery)|
      modifies this, store
      ensures Valid()
      ensures Now() == ClickRowStep(old(Now()), index, clipboardOk, dbOpened)
    {
      var p := Filtered(prompts, searchQuery)[index];
      ClickRowKeepsConsistent(Now(), index, clipboardOk, dbOpened);
      selectedIndex := Row(index);
      VisibleAreStored(Now(), Row(index));
      SelectPrompt(p, clipboardOk, dbOpened);
    }

    /** The injector's `onComplete`, from its copy button (or Enter, which completes with the
        same text): the injector is open on the active prompt's content, the text it renders
        from the values typed so far is copied, and a use of the active prompt is counted. */
    method CompleteFill(session: Injector.FillSession, clipboardOk: bool, dbOpened: bool)
      requires Valid() && mode == FILLING && activePrompt.Some?
      requires session.Valid() && session.content == activePrompt.value.content
      requires Rendering.Rendered(session.content, session.variables, session.values).Some?
      modifies this, store
      ensures Valid()
      ensures Now() == CopyStep(old(Now()), Rendering.Rendered(session.content, session.variables, session.values).value,
        old(activePrompt), clipboardOk, dbOpened)
      ensures var content, values := old(activePrompt).value.content, session.values;
        Rendering.NoInheritedLookup(content, values) && Rendering.Safe(values) &&
        (Rendering.WellFormed(content) || Rendering.Blank(values)) ==>
          Now() == CopyStep(old(Now()), Rendering.Fill(content, values), old(activePrompt), clipboardOk, dbOpened)
    {
      var finalText := session.ClickCopy();
      var content, values := session.content, session.values;
      if Rendering.NoInheritedLookup(content, values) && Rendering.Safe(values) &&
        (Rendering.WellFormed(content) || Rendering.Blank(values)) {
        Rendering.RenderMatchesSinglePass(content, values);
      }
      CopyToClipboard(finalText, activePrompt, clipboardOk, dbOpened);
    }

    /** The back arrow of the filling view and of the editor: only the view changes; unlike
        Escape it keeps the active prompt. */
    method Back()
      requires Valid() && mode != SEARCH
      modifies this
      ensures Valid()
      ensures Now() == old(Now()).(view := old(Now()).view.(mode := SEARCH))
      ensures activePrompt == old(activePrompt)
    {
      mode := SEARCH;
    }

    method EditTitle(title: string)
      requires Valid() && mode == EDITOR
      modifies this
      ensures Valid()
      ensures Now() == old(Now()).(view := old(Now()).view.(editorData := old(editorData).(title := title)))
    {
      editorData := editorData.(title := title);
    }

    method EditContent(content: string)
      requires Valid() && mode == EDITOR
      modifies this
      ensures Valid()
      ensures Now() == old(Now()).(view := old(Now()).view.(editorData := old(editorData).(content := content)))
    {
      editorData := editorData.(content := content);
    }

    /** The tag input shows the tags joined with ", ". */
    function TagField(): string
      reads this
    {
      ShowTags(editorData.tags)
    }

    /** Typing into the tag input: the text is split on commas and each piece trimmed. */
    method EditTags(text: string)
      requires Valid() && mode == EDITOR
      modifies this
      ensures Valid()
      ensures Now() == old(Now()).(view := old(Now()).view.(editorData := old(editorData).(tags := ParseTags(text))))
      ensures |editorData.tags| == CountCommas(text) + 1
    {
      editorData := editorData.(tags := ParseTags(text));
    }

    /** The editor's save button. */
    method Save(freshId: string, now: int, dbOpened: bool)
      requires Valid() && mode == EDITOR
      modifies this, store
      ensures Valid()
      ensures Now() == SaveStep(old(Now()), freshId, now, dbOpened)
    {
      SaveKeepsConsistent(Now(), freshId, now, dbOpened);
      if editorData.title == "" || editorData.content == "" {
        return;
      }
      if editorId.Some? && editorId.value != "" {
        var original := FindById(prompts, editorId.value);
        if original.Some? {
          if !dbOpened {
            return;
          }
          var updated := store.Update(WithForm(original.value, editorData), now);
          prompts := ReplaceById(prompts, updated);
        }
      } else {
        if !dbOpened {
          return;
        }
        var added := store.Add(editorData, freshId, now);
        if added.Failure? {
          return;
        }
        prompts := [added.value] + prompts;
      }
      mode := SEARCH;
    }

    /** A row's delete button, `confirmed` being the answer to the confirmation dialog. */
    method Delete(id: string, confirmed: bool, dbOpened: bool)
      requires Valid() && mode == SEARCH
      modifies this, store
      ensures Valid()
      ensures Now() == DeleteStep(old(Now()), id, confirmed, dbOpened)
    {
      DeleteKeepsConsistent(Now(), id, confirmed, dbOpened);
      if confirmed && dbOpened {
        store.Delete(id);
        prompts := RemoveById(prompts, id);
      }
    }
  }
}
