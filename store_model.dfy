/**
 The value-level model of the page builder's Vuex store: its state (a colour
 theme and the saved GrapesJS document), its initial value, the two mutations
 as transitions between states, and the properties of those transitions,
 including what any sequence of commits leaves in each slot.
 */
module StoreModel {

  datatype Option<+T> = None | Some(value: T)

  /** A theme maps setting names to colour strings. It is a map rather than a
      five-field record because the merge accepts any key name. */
  type Theme = map<string, string>

  /** The store's state. The editor's document is opaque: `C` stands for it,
      and `None` is the `null` the slot starts with. */
  datatype State<C> = State(theme: Theme, grapesJsContent: Option<C>)

  /** The names of the five colour settings the store starts with. */
  const DefaultKeys: set<string> :=
    {"primaryColor", "secondaryColor", "accentColor", "backgroundColor", "textColor"}

  /** The default palette: blue, green, amber, light grey and dark grey. */
  function DefaultTheme(): (t: Theme)
    ensures t.Keys == DefaultKeys
  {
    map[
      "primaryColor" := "#3B82F6",
      "secondaryColor" := "#10B981",
      "accentColor" := "#F59E0B",
      "backgroundColor" := "#F3F4F6",
      "textColor" := "#1F2937"
    ]
  }

  /** The state the store is created with: exactly the five default colours
      and no saved document. */
  function Initial<C>(): (s: State<C>)
    ensures s.theme.Keys == DefaultKeys
    ensures s.theme["primaryColor"] == "#3B82F6"
    ensures s.theme["secondaryColor"] == "#10B981"
    ensures s.theme["accentColor"] == "#F59E0B"
    ensures s.theme["backgroundColor"] == "#F3F4F6"
    ensures s.theme["textColor"] == "#1F2937"
    ensures s.grapesJsContent == None
  {
    State(DefaultTheme(), None)
  }

  /** The value of key `k` in `t`, or `None` when `t` has no such key. */
  function Lookup(t: Theme, k: string): (v: Option<string>)
  {
    if k in t then Some(t[k]) else None
  }

  /** The shallow merge `{...theme, ...partial}`: every key of `partial`
      overwrites, every other key of `theme` is kept. */
  function Merge(theme: Theme, partial: Theme): (r: Theme)
    ensures r.Keys == theme.Keys + partial.Keys
    ensures forall k :: k in partial ==> r[k] == partial[k]
    ensures forall k :: k in theme && k !in partial ==> r[k] == theme[k]
  {
    theme + partial
  }

  /** A commit: the mutation's name together with its payload. */
  datatype Mutation<C> =
    | ThemeCommit(newTheme: Theme)             // commit('setTheme', newTheme)
    | ContentCommit(content: Option<C>)        // commit('setGrapesJsContent', content)

  /** The state after one commit. `setTheme` leaves the content alone and
      merges its payload into the theme: payload keys take the payload's
      values and every other key keeps its value. `setGrapesJsContent` leaves
      the theme alone and puts its payload in the content slot as it is. */
  function Commit<C>(s: State<C>, m: Mutation<C>): (r: State<C>)
    ensures m.ThemeCommit? ==> r.grapesJsContent == s.grapesJsContent
    ensures m.ThemeCommit? ==> r.theme.Keys == s.theme.Keys + m.newTheme.Keys
    ensures m.ThemeCommit? ==> forall k :: k in m.newTheme ==> r.theme[k] == m.newTheme[k]
    ensures m.ThemeCommit? ==> forall k :: k in s.theme && k !in m.newTheme ==> r.theme[k] == s.theme[k]
    ensures m.ContentCommit? ==> r.theme == s.theme
    ensures m.ContentCommit? ==> r.grapesJsContent == m.content
  {
    match m
    case ThemeCommit(p) => s.(theme := Merge(s.theme, p))
    case ContentCommit(c) => s.(grapesJsContent := c)
  }

  /** The state after committing `ms` in order, starting from `s`. */
  function CommitAll<C>(s: State<C>, ms: seq<Mutation<C>>): (r: State<C>)
    decreases |ms|
  {
    if ms == [] then s else CommitAll(Commit(s, ms[0]), ms[1..])
  }

  /** Reference definition of the content slot after a sequence of commits:
      the payload of the last `setGrapesJsContent` in `ms`, found by looking
      from the end, or `initial` when there is none. */
  function LastContentWrite<C>(ms: seq<Mutation<C>>, initial: Option<C>): (c: Option<C>)
    decreases |ms|
  {
    if ms == [] then initial
    else match ms[|ms| - 1]
      case ContentCommit(c) => c
      case ThemeCommit(_) => LastContentWrite(ms[..|ms| - 1], initial)
  }

  /** Reference definition of one theme key after a sequence of commits: the
      value the last `setTheme` whose payload holds `k` gave it, found by
      looking from the end, or `None` when no commit in `ms` wrote `k`. */
  function LastThemeWrite<C>(ms: seq<Mutation<C>>, k: string): (v: Option<string>)
    decreases |ms|
  {
    if ms == [] then None
    else match ms[|ms| - 1]
      case ThemeCommit(p) =>
        if k in p then Some(p[k]) else LastThemeWrite(ms[..|ms| - 1], k)
      case ContentCommit(_) => LastThemeWrite(ms[..|ms| - 1], k)
  }

  // ---------------------------------------------------------------------
  // One commit

  /** Merging the same partial theme twice is the same as merging it once. */
  lemma MergeIdempotent(t: Theme, p: Theme)
    ensures Merge(Merge(t, p), p) == Merge(t, p)
  {
  }

  /** Merging an empty partial theme changes nothing. */
  lemma MergeEmpty(t: Theme)
    ensures Merge(t, map[]) == t
  {
  }

  /** Two merges in a row are one merge of the second partial over the first. */
  lemma MergeCompose(t: Theme, p: Theme, q: Theme)
    ensures Merge(Merge(t, p), q) == Merge(t, Merge(p, q))
  {
  }

  /** Committing the same `setTheme` twice gives the state one commit gives. */
  lemma SetThemeIdempotent<C>(s: State<C>, p: Theme)
    ensures Commit(Commit(s, ThemeCommit(p)), ThemeCommit(p)) == Commit(s, ThemeCommit(p))
  {
    MergeIdempotent(s.theme, p);
  }

  /** Committing `setTheme` with an empty payload changes nothing. */
  lemma SetThemeEmpty<C>(s: State<C>)
    ensures Commit(s, ThemeCommit(map[])) == s
  {
    MergeEmpty(s.theme);
  }

  /** Of two `setGrapesJsContent` commits the second wins outright: the first
      payload leaves no trace. */
  lemma ContentLastWriteWins<C>(s: State<C>, a: Option<C>, b: Option<C>)
    ensures Commit(Commit(s, ContentCommit(a)), ContentCommit(b))
         == Commit(s, ContentCommit(b))
  {
  }

  /** A theme commit and a content commit touch different slots, so their
      order does not matter. */
  lemma ThemeAndContentCommute<C>(s: State<C>, p: Theme, c: Option<C>)
    ensures Commit(Commit(s, ThemeCommit(p)), ContentCommit(c))
         == Commit(Commit(s, ContentCommit(c)), ThemeCommit(p))
  {
  }

  // ---------------------------------------------------------------------
  // Sequences of commits

  /** Committing `a` and then `b` is committing `a + b`. */
  lemma {:induction false} CommitAllAppend<C>(s: State<C>, a: seq<Mutation<C>>, b: seq<Mutation<C>>)
    ensures CommitAll(s, a + b) == CommitAll(CommitAll(s, a), b)
    decreases |a|
  {
    if a == [] {
      assert a + b == b;
    } else {
      assert (a + b)[0] == a[0];
      assert (a + b)[1..] == a[1..] + b;
      CommitAllAppend(Commit(s, a[0]), a[1..], b);
    }
  }

  /** Committing one more mutation after `ms` is one more step. */
  lemma CommitAllSnoc<C>(s: State<C>, ms: seq<Mutation<C>>, m: Mutation<C>)
    ensures CommitAll(s, ms + [m]) == Commit(CommitAll(s, ms), m)
  {
    CommitAllAppend(s, ms, [m]);
    assert CommitAll(Commit(CommitAll(s, ms), m), []) == Commit(CommitAll(s, ms), m);
  }

  /** After any sequence of commits the content slot holds the payload of the
      last `setGrapesJsContent`, or what it held before when there was none. */
  lemma {:induction false} ContentIsLastWrite<C>(s: State<C>, ms: seq<Mutation<C>>)
    ensures CommitAll(s, ms).grapesJsContent == LastContentWrite(ms, s.grapesJsContent)
    decreases |ms|
  {
    if ms != [] {
      var init, last := ms[..|ms| - 1], ms[|ms| - 1];
      assert ms == init + [last];
      CommitAllSnoc(s, init, last);
      ContentIsLastWrite(s, init);
    }
  }

  /** After any sequence of commits each theme key holds the value the last
      `setTheme` that named it gave it; a key no commit named keeps the value
      it had, and is still absent if it was absent. */
  lemma {:induction false} ThemeKeyIsLastWrite<C>(s: State<C>, ms: seq<Mutation<C>>, k: string)
    ensures Lookup(CommitAll(s, ms).theme, k)
         == (if LastThemeWrite(ms, k).Some? then LastThemeWrite(ms, k) else Lookup(s.theme, k))
    decreases |ms|
  {
    if ms != [] {
      var init, last := ms[..|ms| - 1], ms[|ms| - 1];
      assert ms == init + [last];
      CommitAllSnoc(s, init, last);
      ThemeKeyIsLastWrite(s, init, k);
    }
  }

  /** No sequence of commits removes a theme key. */
  lemma {:induction false} ThemeKeysOnlyGrow<C>(s: State<C>, ms: seq<Mutation<C>>)
    ensures s.theme.Keys <= CommitAll(s, ms).theme.Keys
    decreases |ms|
  {
    if ms != [] {
      ThemeKeysOnlyGrow(Commit(s, ms[0]), ms[1..]);
    }
  }

  /** Whatever is committed, the five default colour keys stay present. */
  lemma DefaultKeysStayPresent<C>(ms: seq<Mutation<C>>)
    ensures DefaultKeys <= CommitAll(Initial<C>(), ms).theme.Keys
  {
    ThemeKeysOnlyGrow(Initial<C>(), ms);
  }
}
