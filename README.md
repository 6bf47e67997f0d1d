# Prompts-Flow core, modelled in Dafny

Prompts-Flow is a command-palette prompt manager. It has two builds: a browser extension and a
web page. Both show a search view over stored prompts. Arrow keys move the selection, Enter
selects, and Escape goes back. Selecting a prompt copies it to the clipboard. A prompt that holds
`{{name}}` placeholders first opens a filling view, where one input per placeholder feeds a live
rendering. An editor view creates and updates prompts. Prompts live in an IndexedDB object store
keyed by `id`. A service worker adds a context-menu entry that saves the selected text as a new
prompt.

This project models that core and proves properties of it:

- `Chars`: the character classes of the placeholder pattern. JavaScript's `\s` is the exact ECMAScript WhiteSpace and LineTerminator set. The identifier class is `[a-zA-Z0-9_]`. `toLowerCase` is modelled on ASCII letters.
- `Records`: the `Prompt` and form records.
- `Placeholders`: the placeholder pattern and the extraction loop (`regex.exec` until `null`, collected into an insertion-ordered `Set`), plus the selection check `hasVariables`.
- `Rendering`: the rendering loop, one global `String.prototype.replace` per extracted name, in list order.
  - The value map is a plain object, so a name that has not been typed is looked up on `Object.prototype`. The model gives the value each of its twelve members yields, and what `replace` does with it: a replacement string, a function called on each match, or a `TypeError` that makes the rendering fail.
  - The model includes the `$` patterns of JavaScript's replacement strings.
  - It also gives an independent, single-pass reference rendering (`Fill`) and a theorem saying when the two agree.
- `Injector`: the injector component's value map as a class.
- `Search`: the pure helpers of the search view.
  - The case-insensitive filter.
  - The create command of each build.
  - Wrap-around arrow navigation, with JavaScript's `%`, including the NaN an empty list produces.
  - The scroll-into-view rule and the row snippet.
- `Tags`: the editor's tag field, `split(',')` with `trim()` and `join(', ')`.
- `PromptLists`: the list rewrites the handlers use, which are replace-by-id, remove-by-id and find-by-id.
- `PromptService`: the record store as a class over a keyed map, with `add`, `update`, `delete`, `incrementUsage` and `getAll`. `getAll` lists newest first, ties by key.
- `Palette`: the palette's state machine. It is one class parameterised by the build, whose only difference is the create command. There is one method per handler, each proved equal to a step function on a snapshot of the state. Lemmas on the step functions state what each handler promises. They also show that every handler keeps the in-memory list a mirror of the store.
- `Background`: the service worker's clipped record and its click listener.

Time (`Date.now()`), fresh ids (`crypto.randomUUID()`), the outcome of the clipboard write, whether the database opened, and the user's answer to `window.confirm` are parameters.

Where the design notes and the code disagree, the model follows the code:

- A placeholder name may start with a digit. `{{1bad}}` is the placeholder `1bad` (`Placeholders.LeadingDigitAccepted`).
- The back arrow of the filling view only changes the view. Unlike Escape, it keeps the active prompt (`Palette.App.Back`).
- An editor id of `""` is falsy, so saving with it takes the create path.
- Saving an edit whose original is no longer listed still closes the editor (`Palette.SaveStep`).
- A selection index is not reset when the list shrinks. After ArrowDown or ArrowUp on an empty list it is NaN (`Search.ArrowsOnEmptyList`), and Enter then finds no row.

## Model

| member | source | states |
|---|---|---|
| Chars.ClassesDisjoint | extension/components/VariableInjector.tsx:24 | no `\s` character is an identifier character, and neither brace is either, so the pattern's greedy parts never compete |
| Chars.Lower | extension/App.tsx:141-144 | keeps the length and maps each character to its lower-case form, with no capital letter left |
| Placeholders.TokenPrefix | extension/components/VariableInjector.tsx:24 | a match of `\{\{\s*([a-zA-Z0-9_]+)\s*\}\}` at the start of a text has length at least 5 and a name made of identifier characters only |
| Placeholders.TokenPrefixSound | extension/components/VariableInjector.tsx:24 | a reported match has the pattern's shape: `{{`, spaces, the name, spaces, `}}` |
| Placeholders.TokenPrefixComplete | extension/components/VariableInjector.tsx:24 | any way the pattern can match at a position is the reported match, so the greedy matcher loses nothing to backtracking |
| Placeholders.TokenPrefixLocal | extension/components/VariableInjector.tsx:24 | a match depends only on its own characters |
| Placeholders.TokenInterior | extension/components/VariableInjector.tsx:24 | past its opening `{{`, a placeholder holds no `{` |
| Placeholders.NamedTokenPrefixIsToken | extension/components/VariableInjector.tsx:44 | the per-name pattern matches exactly where the general pattern matches a placeholder of that name, with the same length; a placeholder for `a` never matches inside one for `ab` |
| Placeholders.ScanNames | extension/components/VariableInjector.tsx:27-29 | the names the `exec` loop yields, left to right and non-overlapping, are all identifiers |
| Placeholders.Dedup | extension/components/VariableInjector.tsx:25-30 | `Array.from` of the insertion-ordered `Set` has no duplicates and holds exactly the scanned names |
| Placeholders.DedupKeepsFirstOccurrenceOrder | extension/components/VariableInjector.tsx:25-30 | the extracted names are listed in the order of their first occurrence |
| Placeholders.Variables | extension/components/VariableInjector.tsx:23-31 | the `variables` of the injector: no duplicates, exactly the names found by the scan, all identifiers |
| Placeholders.ExtractVariables | extension/components/VariableInjector.tsx:23-31 | the `while (regex.exec)` loop returns `Variables(content)` |
| Placeholders.ScanPlain | extension/components/VariableInjector.tsx:27-29 | text without `{` contributes no name to the scan and does not shift what follows |
| Placeholders.ExtractTwo | extension/components/VariableInjector.tsx:24-30 | two placeholders amid plain text are listed in first-occurrence order, once if the names are equal; spaces inside the braces are ignored and names are case-sensitive |
| Placeholders.LeadingDigitAccepted | extension/components/VariableInjector.tsx:24 | `{{1bad}}` yields the name `1bad` |
| Placeholders.EmptyNameIgnored | extension/components/VariableInjector.tsx:24 | `{{}}` and `{{ }}` yield nothing |
| Placeholders.ForeignCharIgnored | extension/components/VariableInjector.tsx:24 | `{{a-b}}` yields nothing |
| Placeholders.UnclosedIgnored | extension/components/VariableInjector.tsx:24 | `{{foo}` yields nothing |
| Placeholders.HasVariablesIffExtracted | extension/App.tsx:219 | the selection check `/\{\{\s*[a-zA-Z0-9_]+\s*\}\}/.test` holds exactly when extraction finds at least one name |
| Rendering.ExpandLiteral | extension/components/VariableInjector.tsx:45 | a replacement string without `$` is inserted as it is |
| Rendering.Lookup | extension/components/VariableInjector.tsx:45 | `values[v] \|\| "{{v}}"` is the string replacement for an own key or a name no object inherits. It throws exactly for the eight inherited built-ins other than `__proto__`, `toString`, `isPrototypeOf` and `constructor` |
| Rendering.ReplaceCallsConst | extension/components/VariableInjector.tsx:45 | a replacer function that returns a fixed string inserts that string at every match, literally |
| Rendering.ReplaceCallsEcho | extension/components/VariableInjector.tsx:45 | a replacer function that returns each match (`Object` applied to a string, converted back) leaves the text as it was |
| Rendering.ReplaceFromLiteral | extension/components/VariableInjector.tsx:44-45 | the global replace with a `$`-free replacement puts it at every match of the name's pattern and leaves the rest of the text alone |
| Rendering.Render | extension/components/VariableInjector.tsx:41-48 | the `forEach` loop returns the text after one replace pass per name, in list order, or fails once a pass throws. When no placeholder falls back to `Object.prototype`, and under the conditions below, it agrees with the single-pass reference |
| Rendering.RenderMatchesSinglePass | extension/components/VariableInjector.tsx:41-48 | the passes must agree with replacing every placeholder of the original text by `values[name] \|\| "{{name}}"`. This holds when no placeholder falls back to `Object.prototype`, no value holds `{` or `$`, and either every `{{` starts a placeholder or no value is entered |
| Rendering.BlankRendersCanonical | extension/components/VariableInjector.tsx:45 | with no value entered and no placeholder falling back to `Object.prototype`, every placeholder is rewritten to `{{name}}` without inner spaces, and nothing else changes |
| Rendering.CanonicalUnchanged | extension/components/VariableInjector.tsx:45 | canonicalising a text whose placeholders are already canonical is the identity |
| Rendering.CanonicalRendersUnchanged | extension/components/VariableInjector.tsx:45 | canonical content rendered with no values entered comes back unchanged, when no placeholder falls back to `Object.prototype` |
| Rendering.NoVariablesUnchanged | extension/components/VariableInjector.tsx:42-47 | a text without placeholders renders unchanged for any values, so re-rendering such an output is the identity |
| Rendering.RenderedStaysFailed | extension/components/VariableInjector.tsx:43-46 | once a pass has thrown, the later passes do not run and the rendering fails |
| Rendering.ScannedNameOccurs | extension/components/VariableInjector.tsx:27-29 | every name the scan reports is the name of a placeholder at some position of the text |
| Rendering.LoneInheritedPlaceholder | extension/components/VariableInjector.tsx:20-48 | a template that is one placeholder for an untyped inherited name renders as `[object Object]` (`__proto__`), `[object Undefined]` (`toString`), `false` (`isPrototypeOf`), itself with inner spaces kept (`constructor`), or fails (the others) |
| Rendering.InheritedFirstNameThrows | extension/components/VariableInjector.tsx:41-48 | when the first listed name is an untyped inherited built-in that throws, the rendering fails |
| Injector.FillSession.constructor | extension/components/VariableInjector.tsx:20-31 | opening the injector extracts the variables and starts with an empty value map |
| Injector.FillSession.Shown | extension/components/VariableInjector.tsx:62 | the injector renders inputs exactly when the template passes the selection check |
| Injector.FillSession.Reset | extension/components/VariableInjector.tsx:33-39 | the reset effect empties the map; every input shows `""` except one for `__proto__`, which shows `[object Object]` |
| Injector.FillSession.SetValue | extension/components/VariableInjector.tsx:75-76 | typing into the input for `v` changes key `v` only, and that input shows what was typed |
| Injector.FillSession.Current | extension/components/VariableInjector.tsx:41-48 | the preview is the rendering, or a failure when a pass throws. When no placeholder falls back to `Object.prototype`, it is the single-pass rendering under that theorem's conditions and, with no values, the canonical rendering |
| Injector.FillSession.KeyDown | extension/components/VariableInjector.tsx:55-60 | Enter completes with the current rendering, without checking that values are filled; other keys do nothing |
| Injector.FillSession.ClickCopy | extension/components/VariableInjector.tsx:92-93 | the copy button completes with the current rendering |
| Search.IncludesIff | extension/App.tsx:143-144 | `includes` holds exactly when the query occurs at some index |
| Search.Filtered | extension/App.tsx:140-146 | a prompt is kept exactly when the lower-cased query occurs in its lower-cased title or in one of its lower-cased tags |
| Search.FilteredKeepsOrder | extension/App.tsx:142 | the filtered list is a subsequence of the list, in its order |
| Search.EmptyQueryKeepsAll | App.tsx:75-81 | an empty query lists every prompt |
| Search.CreateCommandVariants | extension/App.tsx:181 | the extension accepts `new` in any case or `新建` exactly; the web build (App.tsx:116) only `new` |
| Search.JsRem | extension/App.tsx:170 | JavaScript `%`: NaN for a zero divisor, the ordinary remainder for a non-negative dividend, and never out of `(-n, n)` |
| Search.ArrowsStayInRange | extension/App.tsx:168-175 | on a non-empty list both arrows keep a non-negative index on a row, and ArrowUp from the first row goes to the last |
| Search.ArrowsOnEmptyList | extension/App.tsx:170-174 | on an empty list either arrow makes the index NaN, and NaN stays NaN |
| Search.DownTimesIs | App.tsx:104-107 | k presses of ArrowDown, for k up to the list length, move k rows down with wrap-around |
| Search.DownCycle | App.tsx:104-107 | n presses of ArrowDown on an n-row list return to the starting row |
| Search.UpUndoesDown | App.tsx:104-111 | ArrowUp undoes ArrowDown on the rows of the list |
| Search.RowAt | extension/App.tsx:177 | `filteredPrompts[selectedIndex]` is a prompt exactly when the index is a row of the list |
| Search.ScrollBringsIntoView | App.tsx:136-147 | after the rule, a row no taller than the viewport lies inside it, and a visible row does not scroll |
| Search.ScrollIsMinimal | App.tsx:136-147 | the viewport moves no further than any other position that shows the row |
| Search.Snippet | App.tsx:343 | `substring(0, 50).replace(/\n/g, ' ')` has `min(50, length)` characters, no newline, and the content's characters otherwise |
| Tags.Split | App.tsx:421 | `split(',')` yields at least one piece and no piece holds a comma |
| Tags.SplitCount | App.tsx:421 | there is one piece more than there are commas |
| Tags.JoinSplit | App.tsx:421 | joining the pieces with commas gives the text back |
| Tags.Trim | App.tsx:421 | `trim()` is a slice between runs of spaces that neither starts nor ends with a space |
| Tags.ParseTags | App.tsx:421 | each tag is the trimmed piece of the comma split at the same position; the tag count is the comma count plus one; each tag is trimmed and comma-free |
| Tags.ParseEmpty | App.tsx:421 | an empty field gives the single tag `""` |
| Tags.ParseShowTags | App.tsx:420-421 | reading back `join(', ')` gives the tags when there is at least one and none holds a comma or surrounding spaces; no tags read back as `[""]` |
| PromptLists.ReplaceById | extension/App.tsx:236 | the list keeps its length; exactly the entries with the updated id become the updated record |
| PromptLists.ReplaceKeepsIds | extension/App.tsx:236 | replacing keeps each position's id and keeps ids unique |
| PromptLists.RemoveById | extension/App.tsx:298 | exactly the entries without the id remain |
| PromptLists.RemoveKeepsOrder | extension/App.tsx:298 | the remaining entries keep their order, and unique ids stay unique |
| PromptLists.FindById | extension/App.tsx:278 | `find` returns a listed entry with the id exactly when there is one |
| PromptService.NewRecord | services/db.ts:47-54 | `add` keeps the form's fields and sets the fresh id, both times to now, no uses and not a favourite |
| PromptService.Touched | services/db.ts:68 | `update` changes only `updatedAt` |
| PromptService.Bumped | services/db.ts:94 | `incrementUsage` adds one use and changes nothing else, `updatedAt` included |
| PromptService.BeforeIsStrictTotal | services/db.ts:35-39 | the listing order (newest first, then greater key first) is a strict order, total on distinct ids |
| PromptService.InsertSorted | services/db.ts:35-39 | inserting a record keeps a listing sorted and adds exactly that record |
| PromptService.ListingIsUnique | services/db.ts:35-39 | two sorted listings of the same records are equal, so the order of `getAll` is determined |
| PromptService.ListingIsNewestFirst | services/db.ts:34-39 | a listing is in descending `updatedAt` order |
| PromptService.NewestHeadsListing | services/db.ts:39-68 | a record newer than every other, as an added or updated one is, heads the listing |
| PromptService.UsageKeepsListingOrder | services/db.ts:94-99 | counting a use keeps the listing order: the new listing is the old one with that record replaced in place |
| PromptService.Store.Insert | services/db.ts:59 | `store.add` inserts a new key and fails with a constraint error, writing nothing, on a taken one |
| PromptService.Store.Add | services/db.ts:45-64 | `add` inserts the new record, or fails without writing when the id is taken |
| PromptService.Store.Update | services/db.ts:66-78 | `update` puts the touched record under its id and changes no other key |
| PromptService.Store.Delete | services/db.ts:80-90 | `delete` removes only that key |
| PromptService.Store.IncrementUsage | services/db.ts:92-104 | `incrementUsage` puts the bumped copy of the prompt passed in under its id |
| PromptService.Store.GetAll | services/db.ts:29-43 | `getAll` returns every stored record once, newest first, ties by key |
| Palette.EscapeOutsideSearch | extension/App.tsx:156-165 | outside the search view only Escape acts: it returns to the search view with no active prompt and changes nothing else |
| Palette.EscapeInSearch | extension/App.tsx:189-191 | in the search view Escape clears a non-empty query, selecting the first row and changing nothing else, and does nothing to an empty one |
| Palette.ArrowsSelectRows | extension/App.tsx:168-175 | with a row selected, the arrows keep the selection on a row and change nothing but the selection, the store and the clipboard included; ArrowUp from the first row selects the last |
| Palette.EnterSelectsRow | extension/App.tsx:177-178 | Enter on a selected row selects its prompt |
| Palette.EnterWithoutRow | extension/App.tsx:179-185 | with no row selected, Enter opens an empty editor for a new prompt exactly when the query is the build's create command, and otherwise does nothing |
| Palette.CreateWordByBuild | App.tsx:112-119 | the Chinese create word opens the editor in the extension build and does nothing in the web build |
| Palette.SelectFillsIffVariables | extension/App.tsx:217-228 | selection opens the filling view on the prompt exactly when its template has a placeholder, and otherwise copies it |
| Palette.CopyOutcome | extension/App.tsx:230-247 | a failed copy changes nothing; a successful one writes the text, returns to the search view with an empty query and no active prompt, and replaces only the used prompt's entry |
| Palette.NewQuerySelectsFirstRow | extension/App.tsx:149-151 | a changed query selects the first row of the new list |
| Palette.SaveNeedsTitleAndContent | extension/App.tsx:273 | saving without a title or a content changes nothing |
| Palette.SaveCreatesInFront | extension/App.tsx:285-287 | creating prepends a record with the form's fields and the fresh id, and stores it |
| Palette.SaveUpdatesInPlace | extension/App.tsx:277-282 | updating keeps the list's length and ids; the edited entry gets the form and the new time; the others are unchanged |
| Palette.SaveFailureKeepsEditor | extension/App.tsx:288-291 | a save whose request fails leaves everything as it was, the editor included |
| Palette.DeleteRemovesId | extension/App.tsx:294-300 | a confirmed delete removes exactly that id from the list, in order, and from the store; an unconfirmed one changes nothing |
| Palette.KeyKeepsConsistent | extension/App.tsx:155-192 | the key handler keeps the list a mirror of the store, and the filling view on a stored prompt with placeholders |
| Palette.ClickRowKeepsConsistent | extension/App.tsx:405 | a row click keeps the invariant |
| Palette.SaveKeepsConsistent | extension/App.tsx:272-292 | saving keeps the invariant; a created id is new to the list |
| Palette.DeleteKeepsConsistent | extension/App.tsx:294-300 | deleting keeps the invariant |
| Palette.LoadKeepsConsistent | extension/App.tsx:125-133 | a loaded listing is a mirror of the store |
| Palette.CopyKeepsConsistent | extension/App.tsx:230-247 | copying, with or without counting a use, keeps the invariant |
| Palette.App.constructor | extension/App.tsx:101-113 | the palette starts in the search view with an empty query, the first row, no active prompt, an empty form and an empty list |
| Palette.App.Load | extension/App.tsx:125-137 | `fetchPrompts` sets the list to the store's listing, newest first |
| Palette.App.SetQuery | extension/App.tsx:149-151 | the query is set, and the first row is selected when it changed |
| Palette.App.CopyToClipboard | extension/App.tsx:230-247 | `copyToClipboard` makes the state `CopyStep` gives |
| Palette.App.SelectPrompt | extension/App.tsx:217-228 | `handlePromptSelection` makes the state `SelectStep` gives |
| Palette.App.OpenEditor | extension/App.tsx:261-270 | the editor opens on the prompt's form and id, or on an empty form with no id |
| Palette.App.KeyDown | extension/App.tsx:155-192 | the keydown listener makes the state `KeyStep` gives |
| Palette.App.ClickRow | extension/App.tsx:405 | a row click selects the row, then handles it as Enter would |
| Palette.App.CompleteFill | extension/App.tsx:466-471 | the injector opened on the active prompt's content completes with its rendering of the values typed so far; that text is copied and a use of the active prompt is counted. Under the single-pass conditions the copied text is the single-pass rendering |
| Palette.App.Back | extension/App.tsx:351 | the back arrow changes the view only and keeps the active prompt |
| Palette.App.EditTitle | extension/App.tsx:484-485 | the title field changes the form's title only |
| Palette.App.EditContent | extension/App.tsx:503-504 | the content field changes the form's content only |
| Palette.App.EditTags | extension/App.tsx:494-495 | the tag field sets the tags to the parsed text, one more than the commas |
| Palette.App.Save | extension/App.tsx:272-292 | `handleEditorSave` makes the state `SaveStep` gives |
| Palette.App.Delete | extension/App.tsx:294-300 | `handleDelete` makes the state `DeleteStep` gives |
| Background.ClipTitle | extension/extension/background.js:31-35 | `Clipped: ` plus the text; text over 30 characters is cut to 30 plus `...` |
| Background.ClipTitleBounds | extension/extension/background.js:31-35 | a clipped title is never longer than 42 characters, and a selection of at most 30 is kept whole |
| Background.ClipRecord | extension/extension/background.js:33-42 | the content is the text, the tags `['clipped']`, both times now, no uses, not a favourite |
| Background.ClipIsNewRecord | extension/extension/background.js:33-42 | a clipped record is the record the editor's create path builds for the same fields |
| Background.SaveToDB | extension/extension/background.js:28-55 | `saveToDB` inserts the clipped record, or returns the error it rethrows, writing nothing |
| Background.OnMenuClicked | extension/extension/background.js:68-82 | a record is written exactly for the worker's own entry with a non-empty selection and a successful insert; a failure is caught and leaves the store unchanged |

## Left out

- Presentation and build. Left out: JSX layout, Tailwind classes, the toast, the loading flag, the translation tables and the language toggle with its `localStorage` entry, `tailwind.config.js` and `extension/vite.config.ts`. None of them decides state that the handlers read.
- `CategoryIcon.getColor`: left out. It is a cosmetic colour choice that depends on JavaScript's 32-bit `<<` coercion.
- IndexedDB plumbing: `openDB`, the upgrade handler and transactions become an abstract keyed map, and whether the database opens is an input flag.
- Asynchronous ordering: the palette's requests are modelled as completing within their handler.
  - The usage update, whose `.then` runs after the reset in the source, reaches the same final state unless another event comes in between.
  - Interleavings with a late `fetchPrompts` are not modelled.
- Focus and timers: the `setTimeout` focus calls and the toast timer are left out.
- `resetTrigger={Date.now()}` resets the injector's values on every re-render of the parent. The model offers `Reset` as an operation but does not model when React re-renders.
- Scrolling: the DOM lookup `listRef.current.children[selectedIndex]` is left out. Only the integer rule is modelled (`Search.ScrollTop`).
- The `onVariablesFilled` sync effect passes the rendering to the parent, and the parent's handler does nothing. That call is not modelled.
- `chrome.contextMenus.create` in `onInstalled` is not modelled. Only its id `pf-save-selection` is.
- A `TypeError` thrown while rendering is modelled as a failed rendering. What React then does with the palette (no error boundary catches it) is not modelled.
- The input for an untyped inherited name other than `__proto__` holds a function, which the input displays as empty. The model states that display and not React's warning about it.
- `Chars.Lower`: lower-cases ASCII letters only, not the full Unicode `toLowerCase`.
- Strings are sequences of Dafny characters, not UTF-16 code units, so the 30- and 50-unit cuts count characters.
- `Background.OnMenuClicked`: a missing `selectionText` is passed as `""`, because both are falsy in the guard.
- `PromptService.Bumped`: models `(usageCount || 0) + 1` as `usageCount + 1` on an integer field that is always present. The two differ when the stored record lacks the field (`undefined`, where the source counts from 0) or holds NaN. Records created by this code always set it, but older or foreign records are not modelled.
- `Rendering.RenderMatchesSinglePass`: it is stated under the hypotheses that no placeholder falls back to `Object.prototype`, that values hold no `{` and no `$`, and that the template is well formed or no value is entered.
  - For a name inherited from `Object.prototype` the source does not render `{{name}}` (`Rendering.LoneInheritedPlaceholder`), so neither the single pass nor the canonical rendering describes it.
  - Outside these hypotheses the passes can build or consume new placeholders. A value holding `$&` is expanded by `replace`.
  - The model computes those cases exactly (`Rendering.Render` and `Rendering.Replace`). It only does not claim the single-pass equation for them.
