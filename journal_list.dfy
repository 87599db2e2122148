/**
 * The logic embedded in screens/JournalListScreen.tsx: the filter options,
 * the mood filter over the store's entries, the filter button's label, the
 * fetch guard, and the screen state that selecting a mood and refreshing
 * update.
 */
module JournalList {
  import opened Wrappers
  import opened JournalStore
  import opened MoodAnalyzer

  const AllFilter := "All"

  /** `['All', ...getAllMoods()]`. */
  function FilterOptions(): (options: seq<string>)
    ensures |options| == |Moods| + 1 && options[0] == AllFilter
    ensures forall i :: 0 <= i < |Moods| ==> options[i + 1] == Moods[i].name
  {
    [AllFilter] + AllMoods()
  }

  lemma FilterOptionsInOrder()
    ensures FilterOptions() == ["All", "Happy", "Sad", "Angry", "Fear", "Surprised", "Neutral"]
  {
    var names := AllMoods();
    AllMoodsInOrder();
    assert FilterOptions() == [AllFilter] + names;
  }

  /** `entries.filter((e) => e.mood === mood)`. */
  function WithMood(entries: seq<JournalEntry>, mood: string): (shown: seq<JournalEntry>)
    ensures |shown| <= |entries|
    ensures forall e :: e in shown <==> e in entries && e.mood == mood
    ensures forall e :: multiset(shown)[e] == if e.mood == mood then multiset(entries)[e] else 0
  {
    if |entries| == 0 then []
    else
      var rest := WithMood(entries[1..], mood);
      assert entries == [entries[0]] + entries[1..];
      assert forall e :: e in entries <==> e == entries[0] || e in entries[1..];
      (if entries[0].mood == mood then [entries[0]] else []) + rest
  }

  /** `xs` can be obtained from `ys` by deleting elements, keeping the order. */
  predicate Subsequence<T(==)>(xs: seq<T>, ys: seq<T>)
    decreases |ys|
  {
    if |xs| == 0 then true
    else if |ys| == 0 then false
    else (xs[0] == ys[0] && Subsequence(xs[1..], ys[1..])) || Subsequence(xs, ys[1..])
  }

  lemma {:induction false} WithMoodKeepsOrder(entries: seq<JournalEntry>, mood: string)
    ensures Subsequence(WithMood(entries, mood), entries)
  {
    if |entries| > 0 {
      WithMoodKeepsOrder(entries[1..], mood);
      var shown := WithMood(entries, mood);
      var rest := WithMood(entries[1..], mood);
      if entries[0].mood == mood {
        assert shown == [entries[0]] + rest;
        assert shown[1..] == rest;
      } else {
        assert shown == rest;
        if |shown| > 0 {
          assert Subsequence(shown, entries[1..]);
        }
      }
    }
  }

  /** `filteredEntries`: all entries for `All`, otherwise exactly those with the selected mood. */
  function FilteredEntries(entries: seq<JournalEntry>, selected: string): (shown: seq<JournalEntry>)
    ensures selected == AllFilter ==> shown == entries
    ensures selected != AllFilter ==> forall e :: e in shown <==> e in entries && e.mood == selected
  {
    if selected == AllFilter then entries else WithMood(entries, selected)
  }

  /** Every filtered list keeps the store's order. */
  lemma FilteredKeepsOrder(entries: seq<JournalEntry>, selected: string)
    ensures Subsequence(FilteredEntries(entries, selected), entries)
  {
    if selected == AllFilter {
      SubsequenceOfItself(entries);
    } else {
      WithMoodKeepsOrder(entries, selected);
    }
  }

  lemma {:induction false} SubsequenceOfItself<T>(xs: seq<T>)
    ensures Subsequence(xs, xs)
  {
    if |xs| > 0 {
      SubsequenceOfItself(xs[1..]);
    }
  }

  /** The filter button's text: `All Entries`, or the mood's emoji, a space and the mood. */
  function FilterLabel(selected: string): (caption: string)
    ensures selected == AllFilter ==> caption == "All Entries"
    ensures forall i :: 0 <= i < |Moods| && Moods[i].name == selected ==> caption == Moods[i].emoji + " " + selected
    ensures selected != AllFilter && selected !in AllMoods() ==> caption == FallbackEmoji + " " + selected
  {
    if selected == AllFilter then "All Entries" else MoodEmoji(selected) + " " + selected
  }

  /** The guard shared by the mount effect and `onRefresh`: `if (!user && loaded) return; if (user) …`. */
  function ShouldFetch(hasUser: bool, loaded: bool): (fetch: bool)
    ensures fetch <==> hasUser
  {
    if !hasUser && loaded then false else hasUser
  }

  class ListScreen {
    var selectedMood: string
    var showFilterModal: bool
    var refreshing: bool

    constructor ()
      ensures selectedMood == AllFilter && !showFilterModal && !refreshing
    {
      selectedMood := AllFilter;
      showFilterModal := false;
      refreshing := false;
    }

    /** Pressing the filter button. */
    method OpenFilter()
      modifies this
      ensures showFilterModal
      ensures selectedMood == old(selectedMood) && refreshing == old(refreshing)
    {
      showFilterModal := true;
    }

    /** `handleSelectMood`: the mood is selected and the modal closes. */
    method SelectMood(mood: string)
      modifies this
      ensures selectedMood == mood && !showFilterModal
      ensures refreshing == old(refreshing)
    {
      selectedMood := mood;
      showFilterModal := false;
    }

    /**
     * `onRefresh`: with a user, `refreshing` is raised around a fetch of that
     * user's entries; without one, nothing happens. `refreshingAtFetch` is the
     * flag while the fetch is outstanding.
     */
    method Refresh(user: Option<string>, store: Store, reply: FetchReply) returns (fetched: bool, refreshingAtFetch: bool)
      modifies this, store
      ensures fetched <==> user.Some?
      ensures fetched ==> refreshingAtFetch && !refreshing
      ensures fetched ==> !store.loading && store.loaded
      ensures fetched && reply.Rows? && reply.data.Some? ==> store.entries == reply.data.value
      ensures fetched && reply.Rows? && reply.data.None? ==> store.entries == []
      ensures fetched && reply.Failed? ==> store.entries == old(store.entries)
      ensures !fetched ==> refreshing == old(refreshing)
      ensures !fetched ==> store.entries == old(store.entries)
                           && store.loading == old(store.loading) && store.loaded == old(store.loaded)
      ensures selectedMood == old(selectedMood) && showFilterModal == old(showFilterModal)
    {
      fetched, refreshingAtFetch := false, refreshing;
      if !ShouldFetch(user.Some?, store.loaded) {
        return;
      }
      refreshing := true;
      refreshingAtFetch := refreshing;
      var _ := store.FetchEntries(user.value, reply);
      refreshing := false;
      fetched := true;
    }
  }

  /**
   * The mount effect as written: a fetch for the signed-in user, none without
   * one. Its `loaded` test only matters without a user, where it changes nothing.
   */
  method OnUserOrLoaded(user: Option<string>, store: Store, reply: FetchReply) returns (fetched: bool)
    modifies store
    ensures fetched <==> user.Some?
    ensures fetched ==> !store.loading && store.loaded
    ensures fetched && reply.Rows? && reply.data.Some? ==> store.entries == reply.data.value
    ensures fetched && reply.Rows? && reply.data.None? ==> store.entries == []
    ensures fetched && reply.Failed? ==> store.entries == old(store.entries)
    ensures !fetched ==> store.entries == old(store.entries)
                         && store.loading == old(store.loading) && store.loaded == old(store.loaded)
  {
    fetched := ShouldFetch(user.Some?, store.loaded);
    if fetched {
      var _ := store.FetchEntries(user.value, reply);
    }
  }

  /**
   * The effect runs on mount and again whenever `user` or `loaded` changes.
   * As written, the first fetch sets `loaded`, which re-runs the effect, and
   * the signed-in user's entries are fetched a second time.
   */
  method MountThenLoaded(user: string, store: Store, first: FetchReply, second: FetchReply) returns (fetches: nat)
    requires !store.loaded
    modifies store
    ensures fetches == 2
    ensures store.loaded && !store.loading
    ensures second.Rows? && second.data.Some? ==> store.entries == second.data.value
  {
    var loadedAtMount := store.loaded;
    var count := 0;
    var fetched := OnUserOrLoaded(Some(user), store, first);
    if fetched {
      count := count + 1;
    }
    if store.loaded != loadedAtMount {
      fetched := OnUserOrLoaded(Some(user), store, second);
      if fetched {
        count := count + 1;
      }
    }
    fetches := count;
  }

  /** The mount guard as its comment intends: fetch for a signed-in user only while the store is not loaded yet. */
  function ShouldFetchOnMount(hasUser: bool, loaded: bool): (fetch: bool)
    ensures fetch ==> hasUser
    ensures fetch <==> ShouldFetch(hasUser, loaded) && !loaded
  {
    hasUser && !loaded
  }

  /** The mount effect with that guard. */
  method OnUserOrLoadedChecked(user: Option<string>, store: Store, reply: FetchReply) returns (fetched: bool)
    modifies store
    ensures fetched <==> user.Some? && !old(store.loaded)
    ensures fetched ==> !store.loading && store.loaded
    ensures fetched && reply.Rows? && reply.data.Some? ==> store.entries == reply.data.value
    ensures fetched && reply.Rows? && reply.data.None? ==> store.entries == []
    ensures fetched && reply.Failed? ==> store.entries == old(store.entries)
    ensures !fetched ==> store.entries == old(store.entries)
                         && store.loading == old(store.loading) && store.loaded == old(store.loaded)
  {
    fetched := ShouldFetchOnMount(user.Some?, store.loaded);
    if fetched {
      var _ := store.FetchEntries(user.value, reply);
    }
  }

  /** With the intended guard, the re-run that `loaded` triggers fetches nothing: one fetch in all. */
  method MountThenLoadedChecked(user: string, store: Store, first: FetchReply, second: FetchReply) returns (fetches: nat)
    requires !store.loaded
    modifies store
    ensures fetches == 1
    ensures store.loaded && !store.loading
    ensures first.Rows? && first.data.Some? ==> store.entries == first.data.value
  {
    var loadedAtMount := store.loaded;
    var count := 0;
    var fetched := OnUserOrLoadedChecked(Some(user), store, first);
    if fetched {
      count := count + 1;
    }
    if store.loaded != loadedAtMount {
      fetched := OnUserOrLoadedChecked(Some(user), store, second);
      if fetched {
        count := count + 1;
      }
    }
    fetches := count;
  }
}
