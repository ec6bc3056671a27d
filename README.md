# Page builder theme/content store in Dafny

This project models the Vuex store of a small page-builder application
(`src/store/index.js`). The store holds two slots:

- `theme`: named colour strings, starting as the five colours of a fixed
  default palette;
- `grapesJsContent`: the document saved from the GrapesJS editor, starting
  as `null`.

Two mutations change the state. `setTheme` shallow-merges a partial theme
into the current one: the payload's keys overwrite and the other keys stay.
`setGrapesJsContent` replaces the saved document outright. Two actions,
`updateTheme` and `saveGrapesJsContent`, commit those mutations with their
payload unchanged. Two getters, `getTheme` and `getGrapesJsContent`, return
the slots.

The model has two layers:

- `store_model.dfy`, module `StoreModel`: the state as a value, `State<C>`.
  The theme is a `map<string, string>`. The editor's document is a type
  parameter `C`, and `null` is `None`. The module gives the default palette,
  the merge and the commits as functions. `CommitAll` runs a sequence of
  commits. `LastContentWrite` and `LastThemeWrite` are reference definitions
  that look for the last relevant commit from the end of the sequence. The
  lemmas prove what one commit does, what pairs of commits do, and what any
  sequence of commits leaves in each slot.
- `vuex_store.dfy`, module `VuexStore`: the store object, a class `Store<C>`
  with the fields `theme` and `grapesJsContent`. The mutations and actions
  are methods that assign the fields in place (`modifies this`). Each one is
  specified by the matching `Commit` transition. A ghost field `history`
  records every commit made on the object, and the object invariant `Valid()`
  says the fields equal `CommitAll` of that history from the initial state.
  So the lemmas about sequences of commits apply to the store object itself.
  The constructor establishes `Valid()` and every mutating method keeps it,
  so the `requires Valid()` on those methods holds for every store built by
  the constructor and changed only through these methods.
  The getters are functions that read the fields.

Vuex's `commit` and `dispatch` are modelled as direct calls. The theme is a
map rather than a five-field record because the spread in `setTheme` accepts
any key name. Unknown keys are passed through, as in the code.

## Model

| member | source | states |
|---|---|---|
| `StoreModel.DefaultTheme` | src/store/index.js:6-13 | the default theme has exactly the five keys `primaryColor`, `secondaryColor`, `accentColor`, `backgroundColor`, `textColor` |
| `StoreModel.Initial` | src/store/index.js:5-16 | the initial state has exactly the five default keys with the values `#3B82F6`, `#10B981`, `#F59E0B`, `#F3F4F6`, `#1F2937`, and its content slot is absent (`null`) |
| `StoreModel.Merge` | src/store/index.js:19 | the merged theme's key set is the old keys plus the partial's keys; each key of the partial takes the partial's value; every other old key keeps its old value |
| `StoreModel.Commit` | src/store/index.js:17-23 | `setTheme` leaves the content unchanged and merges its payload into the theme: the key set grows by the payload's keys, payload keys take the payload's values, every other key keeps its value; `setGrapesJsContent` leaves the theme unchanged and stores its payload as given |
| `StoreModel.MergeIdempotent` | src/store/index.js:19 | merging the same partial twice equals merging it once |
| `StoreModel.MergeEmpty` | src/store/index.js:19 | merging an empty partial leaves the theme unchanged |
| `StoreModel.MergeCompose` | src/store/index.js:19 | two successive merges equal one merge of the second partial laid over the first |
| `StoreModel.SetThemeIdempotent` | src/store/index.js:18-20 | committing the same `setTheme` twice gives the same state as committing it once |
| `StoreModel.SetThemeEmpty` | src/store/index.js:18-20 | committing `setTheme` with an empty payload leaves the state unchanged |
| `StoreModel.ContentLastWriteWins` | src/store/index.js:21-23 | `setGrapesJsContent(a)` then `setGrapesJsContent(b)` gives the same state as `setGrapesJsContent(b)` alone, so nothing of `a` remains |
| `StoreModel.ThemeAndContentCommute` | src/store/index.js:17-23 | a theme commit and a content commit change different slots, so their order does not matter |
| `StoreModel.CommitAllAppend` | src/store/index.js:17-23 | committing a sequence `a` and then `b` gives the same state as committing `a + b` |
| `StoreModel.CommitAllSnoc` | src/store/index.js:17-23 | committing one more mutation after a sequence is one more single-commit step |
| `StoreModel.ContentIsLastWrite` | src/store/index.js:21-23 | after any sequence of commits, the content slot equals the payload of the last `setGrapesJsContent`, or its earlier value if there was none |
| `StoreModel.ThemeKeyIsLastWrite` | src/store/index.js:18-20 | after any sequence of commits, each theme key holds the value from the last `setTheme` that named it; a key no commit named keeps its earlier value, or stays absent |
| `StoreModel.ThemeKeysOnlyGrow` | src/store/index.js:19 | no sequence of commits removes a theme key |
| `StoreModel.DefaultKeysStayPresent` | src/store/index.js:6-19 | starting from the initial state, the five default keys are present after any sequence of commits |
| `VuexStore.Store.constructor` | src/store/index.js:4-16 | a new store is in the initial state, with an empty commit history: the default theme with its five keys, and no content |
| `VuexStore.Store.SetTheme` | src/store/index.js:18-20 | the theme field becomes the old theme merged with the payload: the key set grows by the payload's keys, payload keys take the payload's values, other keys keep theirs; the content field is unchanged; the commit is appended to the history and the invariant is kept |
| `VuexStore.Store.SetGrapesJsContent` | src/store/index.js:21-23 | the content field becomes the payload; the theme field is unchanged; the commit is appended to the history and the invariant is kept |
| `VuexStore.Store.UpdateTheme` | src/store/index.js:26-28 | the new state and history are exactly those after committing `setTheme` with the same payload |
| `VuexStore.Store.SaveGrapesJsContent` | src/store/index.js:29-31 | the new state and history are exactly those after committing `setGrapesJsContent` with the same payload |
| `VuexStore.Store.GetTheme` | src/store/index.js:34 | returns the current theme slot and changes nothing; on a valid store the five default keys are present whatever has been committed |
| `VuexStore.Store.GetGrapesJsContent` | src/store/index.js:35 | returns the current content slot and changes nothing; on a valid store it is the payload of the last `setGrapesJsContent` commit, or `null` when there has been none |
| `VuexStore.Store.ThemeKeyFromHistory` | src/store/index.js:18-20 | on a valid store, each theme key holds the value from the last `setTheme` commit that named it, or its default value (or absence) when none did |

## Left out

- The persistence plugin `createPersistedState()` (src/store/index.js:37) is not part of this model. It saves the state to browser local storage and restores it at start-up, through the third-party `vuex-persistedstate` package (imported at src/store/index.js:2). Serialisation, rehydration and storage failures belong to that package and are not modelled. The model starts from the built-in defaults, as a first start with no saved state does.
- Vuex's `createStore`, `commit` and `dispatch` machinery (src/store/index.js:1, 4) is framework code. Commits and dispatches are modelled as direct calls, and the store's reactivity is not modelled.
- `src/main.js` is application bootstrap and has no logic to model. It imports styles and fonts, creates the app, registers the router and the store, and mounts the app.
- The GrapesJS editor is an external component. Its document is the type parameter `C`.
- `VuexStore.Store.SetTheme`: theme values are modelled as strings, as every colour setting is. A JavaScript payload could carry values of other types, or be `null` or `undefined`, which spread as an empty object. The model takes a `map<string, string>`, where the empty map stands for those.
- `StoreModel.Merge`: JavaScript objects keep their string keys in insertion order (integer-like keys first, in numeric order), and a map does not. The model does not capture key order.
- `VuexStore.Store.GetTheme`, `VuexStore.Store.GetGrapesJsContent`: both getters return references to live objects, which a caller could then change without a commit. `setGrapesJsContent` stores the caller's document by reference too (src/store/index.js:22). The model treats the theme and the document `C` as values, so this aliasing is not modelled.
- `VuexStore.Store.SetTheme`: the fields `theme` and `grapesJsContent` are public, so a caller can assign them directly and break `Valid()`. The source has the same loophole: with Vuex's strict mode off, a caller may assign `store.state.theme` outside a mutation. The model's promises about the history cover only stores changed through the mutation and action methods.
- Colour strings are not validated, because the code does not validate them.
