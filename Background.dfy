/** The extension's service worker: the context-menu entry that saves the selected text as a
    new prompt, written straight into the same object store. */
module Background {
  import opened Records
  import opened PromptService

  /** The id of the context-menu entry the worker registers on install. */
  const MenuId: string := "pf-save-selection"

  const ClipPrefix: string := "Clipped: "

  /** The title of a clipped prompt: the prefix, then the text, cut to 30 characters with an
      ellipsis when it is longer. */
  function ClipTitle(text: string): (t: string)
    ensures |ClipPrefix| <= |t| <= |ClipPrefix| + 33 && t[..|ClipPrefix|] == ClipPrefix
    ensures |text| <= 30 ==> t == ClipPrefix + text
    ensures |text| > 30 ==> t == ClipPrefix + text[..30] + "..."
  {
    var shown := if |text| > 30 then text[..30] + "..." else text;
    ClipPrefix + shown
  }

  /** The record `saveToDB` builds for a selection. */
  function ClipRecord(text: string, id: string, now: int): (r: Prompt)
    ensures r.id == id && r.title == ClipTitle(text) && r.content == text && r.tags == ["clipped"]
    ensures r.createdAt == now && r.updatedAt == now && r.usageCount == 0 && !r.isFavorite
  {
    Prompt(id, ClipTitle(text), text, ["clipped"], now, now, 0, false)
  }

  /** A clipped record is what the editor's create path would have added for the same title,
      text and tag. */
  lemma ClipIsNewRecord(text: string, id: string, now: int)
    ensures ClipRecord(text, id, now) == NewRecord(PromptForm(ClipTitle(text), text, ["clipped"]), id, now)
  {
  }

  /** The title never exceeds 42 characters, and a selection of at most 30 is kept whole. */
  lemma ClipTitleBounds(text: string)
    ensures |ClipTitle(text)| <= 42
    ensures |text| <= 30 ==> ClipTitle(text)[|ClipPrefix|..] == text
    ensures |text| > 30 ==> |ClipTitle(text)| == 42
  {
    assert |ClipPrefix| == 9;
  }

  /** `saveToDB(text)`: the insert, or the error it is rethrown with. `dbOpened` is whether the
      database could be opened. */
  method SaveToDB(store: Store, text: string, id: string, now: int, dbOpened: bool) returns (r: Result<Prompt, StoreError>)
    requires store.Valid()
    modifies store
    ensures store.Valid()
    ensures !dbOpened ==> r == Failure(IoError) && store.records == old(store.records)
    ensures dbOpened && id in old(store.records) ==> r == Failure(ConstraintError) && store.records == old(store.records)
    ensures dbOpened && id !in old(store.records) ==>
      r == Success(ClipRecord(text, id, now)) && store.records == old(store.records)[id := ClipRecord(text, id, now)]
  {
    if !dbOpened {
      r := Failure(IoError);
    } else {
      r := store.Insert(ClipRecord(text, id, now));
    }
  }

  /** The click listener: only the worker's own entry with a non-empty selection saves, and a
      failed save is caught here, so the listener itself always completes. `selectionText` is
      "" when the click carried no selection. The result says whether a record was written. */
  method OnMenuClicked(store: Store, menuItemId: string, selectionText: string, id: string, now: int, dbOpened: bool)
    returns (saved: bool)
    requires store.Valid()
    modifies store
    ensures store.Valid()
    ensures saved <==> menuItemId == MenuId && selectionText != "" && dbOpened && id !in old(store.records)
    ensures saved ==> store.records == old(store.records)[id := ClipRecord(selectionText, id, now)]
    ensures !saved ==> store.records == old(store.records)
  {
    saved := false;
    if menuItemId == MenuId && selectionText != "" {
      var r := SaveToDB(store, selectionText, id, now, dbOpened);
      saved := r.Success?;
    }
  }
}
