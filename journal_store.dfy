/**
 * The journal store of store/journalStore.ts: the fetched entries and two
 * flags, `loading` (a fetch is in progress) and `loaded` (a fetch has
 * finished). The database query is represented by its reply.
 */
module JournalStore {
  import opened Wrappers

  /** A row of `journal_entries`; `createdAt` is the timestamp text as stored. */
  datatype JournalEntry = JournalEntry(id: int, userId: string, content: string, mood: string, createdAt: string)

  /** The query's answer: rows (`data`, possibly null) with no error, or an error or a thrown failure. */
  datatype FetchReply = Rows(data: Option<seq<JournalEntry>>) | Failed

  class Store {
    var entries: seq<JournalEntry>
    var loading: bool
    var loaded: bool

    /** The initial state: no entries, not loading, not loaded. */
    constructor ()
      ensures entries == [] && !loading && !loaded
    {
      entries := [];
      loading := false;
      loaded := false;
    }

    /** `addEntry`: the new entry goes first, the others follow in order; the flags are unchanged. */
    method AddEntry(entry: JournalEntry)
      modifies this`entries
      ensures entries == [entry] + old(entries)
      ensures |entries| == |old(entries)| + 1 && entries[1..] == old(entries)
    {
      entries := [entry] + entries;
    }

    /**
     * `fetchEntries(userId)`: `loading` is set before the query; on rows the
     * entries are replaced, on failure they are kept; afterwards the store is
     * not loading and is loaded. `loadingAtQuery` is `loading` while the
     * query is outstanding.
     */
    method FetchEntries(userId: string, reply: FetchReply) returns (loadingAtQuery: bool)
      modifies this
      ensures loadingAtQuery
      ensures reply.Rows? && reply.data.Some? ==> entries == reply.data.value
      ensures reply.Rows? && reply.data.None? ==> entries == []
      ensures reply.Failed? ==> entries == old(entries)
      ensures !loading && loaded
    {
      loading := true;
      loadingAtQuery := loading;
      if reply.Rows? {
        entries := if reply.data.Some? then reply.data.value else [];
      }
      loading, loaded := false, true;
    }
  }
}
