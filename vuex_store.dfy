/**
 The store object itself: its two state slots are fields that the mutations
 assign in place. Actions forward to the mutations and getters read the
 fields. Each method is specified by the value-level transition in
 StoreModel.
 */
module VuexStore {
  import opened StoreModel

  class Store<C> {
    var theme: Theme
    var grapesJsContent: Option<C>
    /** Every commit made on this store since it was created, in order. */
    ghost var history: seq<Mutation<C>>

    /** The store's state as a value. */
    function Current(): State<C>
      reads this
    {
      State(theme, grapesJsContent)
    }

    /** The object invariant: the fields hold what the commits in `history`
        make of the initial state. */
    ghost predicate Valid()
      reads this
    {
      Current() == CommitAll(Initial(), history)
    }

    /** A fresh store holds the default palette and no saved document. */
    constructor ()
      ensures Valid() && history == []
      ensures Current() == Initial()
      ensures theme.Keys == DefaultKeys && grapesJsContent == None
    {
      theme := DefaultTheme();
      grapesJsContent := None;
      history := [];
    }

    /** Mutation `setTheme`: merge `newTheme` into the theme. */
    method SetTheme(newTheme: Theme)
      modifies this
      requires Valid()
      ensures Valid() && history == old(history) + [ThemeCommit(newTheme)]
      ensures Current() == Commit(old(Current()), ThemeCommit(newTheme))
      ensures theme.Keys == old(theme.Keys) + newTheme.Keys
      ensures forall k :: k in newTheme ==> theme[k] == newTheme[k]
      ensures forall k :: k in old(theme) && k !in newTheme ==> theme[k] == old(theme[k])
      ensures grapesJsContent == old(grapesJsContent)
    {
      CommitAllSnoc(Initial(), history, ThemeCommit(newTheme));
      theme := Merge(theme, newTheme);
      history := history + [ThemeCommit(newTheme)];
    }

    /** Mutation `setGrapesJsContent`: replace the saved document. */
    method SetGrapesJsContent(content: Option<C>)
      modifies this
      requires Valid()
      ensures Valid() && history == old(history) + [ContentCommit(content)]
      ensures Current() == Commit(old(Current()), ContentCommit(content))
      ensures grapesJsContent == content
      ensures theme == old(theme)
    {
      CommitAllSnoc(Initial(), history, ContentCommit(content));
      grapesJsContent := content;
      history := history + [ContentCommit(content)];
    }

    /** Action `updateTheme`: commits `setTheme` with the same payload. */
    method UpdateTheme(themeSettings: Theme)
      modifies this
      requires Valid()
      ensures Valid() && history == old(history) + [ThemeCommit(themeSettings)]
      ensures Current() == Commit(old(Current()), ThemeCommit(themeSettings))
    {
      SetTheme(themeSettings);
    }

    /** Action `saveGrapesJsContent`: commits `setGrapesJsContent` with the
        same payload. */
    method SaveGrapesJsContent(content: Option<C>)
      modifies this
      requires Valid()
      ensures Valid() && history == old(history) + [ContentCommit(content)]
      ensures Current() == Commit(old(Current()), ContentCommit(content))
    {
      SetGrapesJsContent(content);
    }

    /** Getter `getTheme`: the current theme slot. Whatever has been
        committed, it still holds the five default keys. */
    function GetTheme(): (t: Theme)
      reads this
      ensures t == Current().theme
      ensures Valid() ==> DefaultKeys <= t.Keys
    {
      DefaultKeysStayPresent(history);
      theme
    }

    /** Getter `getGrapesJsContent`: the current content slot, which is the
        payload of the last `setGrapesJsContent` commit, or `null` when there
        has been none. */
    function GetGrapesJsContent(): (c: Option<C>)
      reads this
      ensures c == Current().grapesJsContent
      ensures Valid() ==> c == LastContentWrite(history, None)
    {
      ContentIsLastWrite(Initial(), history);
      grapesJsContent
    }

    /** Each theme key of a store holds the value the last `setTheme` commit
        naming it gave it, or its default value (or absence) when no commit
        named it. */
    lemma ThemeKeyFromHistory(k: string)
      requires Valid()
      ensures Lookup(theme, k)
           == (if LastThemeWrite(history, k).Some? then LastThemeWrite(history, k)
               else Lookup(DefaultTheme(), k))
    {
      ThemeKeyIsLastWrite(Initial(), history, k);
    }
  }
}
