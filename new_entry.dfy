/**
 * `handleSaveAndAnalyze` of screens/NewEntryScreen.tsx: two guards (blank
 * content, then no user), then the busy flags, the mood analysis of the
 * content as typed, the insert of the trimmed content, the hand-over of the
 * returned row to the store, and the report; the flags drop on every path
 * past the guards. The database is represented by its reply; the calls and
 * alerts are returned as a trace.
 *
 * As written, the row is handed to the store before the insert's error is
 * looked at, so a failed insert adds a null entry. `SaveAndAnalyze` models
 * the handler as written; `SaveAndAnalyzeChecked` is the corrected handler.
 */
module NewEntry {
  import opened Wrappers
  import opened Text
  import opened MoodAnalyzer
  import opened JournalStore

  /** The row sent to `insert`. */
  datatype NewRow = NewRow(userId: string, content: string, mood: string)

  /** The insert's answer (`data` and `error` of `.single()`), or a thrown failure, an `Error` or not. */
  datatype InsertReply =
    | Answered(data: Option<JournalEntry>, error: Option<string>)
    | ThrewError(message: string)
    | ThrewOther

  datatype Effect =
    | Analyze(text: string)
    | Insert(row: NewRow)
    | AddEntry(entry: Option<JournalEntry>)
    | Alert(title: string, message: string)

  const BlankMessage := "Please write something before saving"
  const SignedOutMessage := "You must be logged in to save entries"

  /** The success report, with the table's emoji for the mood; its OK button goes back. */
  function SavedMessage(mood: string): (m: string)
    ensures forall i :: 0 <= i < |Moods| && Moods[i].name == mood ==>
              m == "Entry saved with mood: " + Moods[i].emoji + " " + mood
    ensures mood !in AllMoods() ==> m == "Entry saved with mood: " + FallbackEmoji + " " + mood
  {
    "Entry saved with mood: " + MoodEmoji(mood) + " " + mood
  }

  /** `error.message || 'Unknown error'` after the save-failure prefix. */
  function SaveFailedMessage(message: string): (m: string)
    ensures message != "" ==> m == "Failed to save journal entry: " + message
    ensures message == "" ==> m == "Failed to save journal entry: Unknown error"
  {
    "Failed to save journal entry: " + (if message != "" then message else "Unknown error")
  }

  /** The message of a thrown `Error`, or 'Unknown error' for anything else thrown. */
  function UnexpectedMessage(reply: InsertReply): (m: string)
    ensures reply.ThrewError? ==> m == "An unexpected error occurred: " + reply.message
    ensures !reply.ThrewError? ==> m == "An unexpected error occurred: Unknown error"
  {
    "An unexpected error occurred: " + (if reply.ThrewError? then reply.message else "Unknown error")
  }

  /** `!content.trim() || loading`: the save button's `disabled`. */
  function SaveDisabled(content: string, loading: bool): (disabled: bool)
    ensures disabled <==> AllSpace(content) || loading
  {
    Trim(content) == "" || loading
  }

  /** The insert answered with a row and no error. */
  predicate RowReturned(reply: InsertReply)
  {
    reply.Answered? && reply.error.None? && reply.data.Some?
  }

  /**
   * What follows the insert, as written: the store is handed `data` before
   * `error` is looked at, then the failure or the success is reported; a
   * throw skips both.
   */
  function ReportAsWritten(reply: InsertReply, mood: string): (t: seq<Effect>)
    ensures reply.Answered? ==> |t| == 2 && t[0] == AddEntry(reply.data)
    ensures reply.Answered? && reply.error.Some? ==> t[1] == Alert("Error", SaveFailedMessage(reply.error.value))
    ensures reply.Answered? && reply.error.None? ==> t[1] == Alert("Success!", SavedMessage(mood))
    ensures !reply.Answered? ==> t == [Alert("Error", UnexpectedMessage(reply))]
  {
    match reply
    case Answered(data, error) =>
      var outcome := if error.Some? then Alert("Error", SaveFailedMessage(error.value)) else Alert("Success!", SavedMessage(mood));
      [AddEntry(data), outcome]
    case _ => [Alert("Error", UnexpectedMessage(reply))]
  }

  /**
   * What follows the insert as evidently intended: a failure is reported and
   * nothing else happens; only a returned row reaches the store.
   */
  function ReportChecked(reply: InsertReply, mood: string): (t: seq<Effect>)
    ensures RowReturned(reply) ==> t == [AddEntry(reply.data), Alert("Success!", SavedMessage(mood))]
    ensures reply.Answered? && reply.error.None? && reply.data.None? ==> t == [Alert("Success!", SavedMessage(mood))]
    ensures reply.Answered? && reply.error.Some? ==> t == [Alert("Error", SaveFailedMessage(reply.error.value))]
    ensures !reply.Answered? ==> t == [Alert("Error", UnexpectedMessage(reply))]
  {
    match reply
    case Answered(data, error) =>
      if error.Some? then [Alert("Error", SaveFailedMessage(error.value))]
      else if data.Some? then [AddEntry(data), Alert("Success!", SavedMessage(mood))]
      else [Alert("Success!", SavedMessage(mood))]
    case _ => [Alert("Error", UnexpectedMessage(reply))]
  }

  /** As written, every answered insert reaches the store, the failed ones included, and only success is reported as such. */
  lemma AsWrittenHandsOverEveryAnswer(reply: InsertReply, mood: string)
    ensures (exists e :: e in ReportAsWritten(reply, mood) && e.AddEntry?) <==> reply.Answered?
    ensures Alert("Success!", SavedMessage(mood)) in ReportAsWritten(reply, mood) <==> reply.Answered? && reply.error.None?
  {
    var t := ReportAsWritten(reply, mood);
    if reply.Answered? {
      assert t[0] in t;
    }
  }

  /** Corrected, the store receives exactly the rows returned without error, and success is still reported on every error-free answer. */
  lemma CheckedHandsOverOnlyRows(reply: InsertReply, mood: string)
    ensures forall e :: e in ReportChecked(reply, mood) && e.AddEntry? ==> e.entry == reply.data && e.entry.Some?
    ensures (exists e :: e in ReportChecked(reply, mood) && e.AddEntry?) <==> RowReturned(reply)
    ensures Alert("Success!", SavedMessage(mood)) in ReportChecked(reply, mood) <==> reply.Answered? && reply.error.None?
  {
    var t := ReportChecked(reply, mood);
    if RowReturned(reply) {
      assert t[0] in t;
    }
  }

  /** The correction changes nothing when the insert returned a row without error. */
  lemma CorrectionKeepsSuccess(entry: JournalEntry, mood: string)
    ensures ReportChecked(Answered(Some(entry), None), mood) == ReportAsWritten(Answered(Some(entry), None), mood)
  {
  }

  /** As written, an insert that returns an error and no row hands a null entry to the store; corrected, it does not. */
  lemma FailedInsertAddsNull(message: string, mood: string)
    ensures AddEntry(None) in ReportAsWritten(Answered(None, Some(message)), mood)
    ensures AddEntry(None) !in ReportChecked(Answered(None, Some(message)), mood)
  {
    assert ReportAsWritten(Answered(None, Some(message)), mood)[0] == AddEntry(None);
  }

  /** The two guards in order: blank content first, then a missing user. */
  function GuardMessage(content: string, user: Option<string>): (message: Option<string>)
    ensures message.None? <==> !AllSpace(content) && user.Some?
    ensures AllSpace(content) ==> message == Some(BlankMessage)
    ensures !AllSpace(content) && user.None? ==> message == Some(SignedOutMessage)
  {
    if Trim(content) == "" then Some(BlankMessage)
    else if user.None? then Some(SignedOutMessage)
    else None
  }

  /** Past the guards, as written: the analysis of the content as typed, the insert of the trimmed content, the report. */
  method AnalyzeAndInsert(content: string, userId: string, reply: InsertReply) returns (trace: seq<Effect>, verdict: string)
    ensures verdict == KeywordVerdict(content).mood
    ensures trace == [Analyze(content), Insert(NewRow(userId, Trim(content), verdict))] + ReportAsWritten(reply, verdict)
  {
    var moodResult := AnalyzeWithKeywords(content);
    verdict := moodResult.mood;
    trace := [Analyze(content), Insert(NewRow(userId, Trim(content), verdict))];
    trace := trace + ReportAsWritten(reply, verdict);
  }

  /** Past the guards, corrected: the analysis, the insert, and the report. */
  method AnalyzeAndInsertChecked(content: string, userId: string, reply: InsertReply) returns (trace: seq<Effect>, verdict: string)
    ensures verdict == KeywordVerdict(content).mood
    ensures trace == [Analyze(content), Insert(NewRow(userId, Trim(content), verdict))] + ReportChecked(reply, verdict)
  {
    var moodResult := AnalyzeWithKeywords(content);
    verdict := moodResult.mood;
    trace := [Analyze(content), Insert(NewRow(userId, Trim(content), verdict))];
    trace := trace + ReportChecked(reply, verdict);
  }

  /** The corrected `addEntry`: only a row returned without error reaches the store. */
  method HandOver(reply: InsertReply, store: Store)
    modifies store`entries
    ensures RowReturned(reply) ==> store.entries == [reply.data.value] + old(store.entries)
    ensures !RowReturned(reply) ==> store.entries == old(store.entries)
  {
    if RowReturned(reply) {
      store.AddEntry(reply.data.value);
    }
  }

  /**
   * `addEntry(data)` as written, for the rows it can hold: an answered insert
   * that returned a row hands it to the store whether or not it also reported
   * an error; a null row is left to the trace.
   */
  method HandOverAsWritten(reply: InsertReply, store: Store)
    modifies store`entries
    ensures reply.Answered? && reply.data.Some? ==> store.entries == [reply.data.value] + old(store.entries)
    ensures !(reply.Answered? && reply.data.Some?) ==> store.entries == old(store.entries)
  {
    if reply.Answered? && reply.data.Some? {
      store.AddEntry(reply.data.value);
    }
  }

  /** The screen's two busy flags, `loading` and `analyzing`, which the handler raises and drops together. */
  datatype Busy = Busy(loading: bool, analyzing: bool)

  const Idle := Busy(false, false)

  class NewEntryScreen {
    var content: string
    var busy: Busy

    constructor ()
      ensures content == "" && busy == Idle
    {
      content := "";
      busy := Idle;
    }

    /** `onChangeText={setContent}`. */
    method Edit(text: string)
      modifies this
      ensures content == text && busy == old(busy)
    {
      content := text;
    }

    /** `handleSaveAndAnalyze` as written; `busyAtInsert` is whether both flags were up while the insert was out. */
    method SaveAndAnalyze(user: Option<string>, reply: InsertReply, store: Store)
      returns (trace: seq<Effect>, busyAtInsert: bool, mood: string)
      modifies this`busy, store`entries
      ensures GuardMessage(old(content), user).Some? ==> trace == [Alert("Error", GuardMessage(old(content), user).value)]
      ensures GuardMessage(old(content), user).None? ==>
                && mood == KeywordVerdict(old(content)).mood
                && trace == [Analyze(old(content)), Insert(NewRow(user.value, Trim(old(content)), mood))] + ReportAsWritten(reply, mood)
      ensures GuardMessage(old(content), user).Some? ==> busy == old(busy)
      ensures GuardMessage(old(content), user).None? ==> busyAtInsert && busy == Idle
      ensures GuardMessage(old(content), user).Some? ==> store.entries == old(store.entries)
      ensures GuardMessage(old(content), user).None? && reply.Answered? && reply.data.Some? ==>
                store.entries == [reply.data.value] + old(store.entries)
      ensures GuardMessage(old(content), user).None? && !(reply.Answered? && reply.data.Some?) ==>
                store.entries == old(store.entries)
    {
      var text := content;
      var blocked := GuardMessage(text, user);
      if blocked.Some? {
        trace, busyAtInsert, mood := [Alert("Error", blocked.value)], false, "";
      } else {
        busy := Busy(true, true);
        busyAtInsert := busy.loading && busy.analyzing;
        trace, mood := AnalyzeAndInsert(text, user.value, reply);
        HandOverAsWritten(reply, store);
        busy := Idle;
      }
    }

    /** The corrected handler: the store is given the row only after a successful insert. */
    method SaveAndAnalyzeChecked(user: Option<string>, reply: InsertReply, store: Store)
      returns (trace: seq<Effect>, busyAtInsert: bool, mood: string)
      modifies this`busy, store`entries
      ensures GuardMessage(old(content), user).Some? ==> trace == [Alert("Error", GuardMessage(old(content), user).value)]
      ensures GuardMessage(old(content), user).None? ==>
                && mood == KeywordVerdict(old(content)).mood
                && trace == [Analyze(old(content)), Insert(NewRow(user.value, Trim(old(content)), mood))] + ReportChecked(reply, mood)
      ensures GuardMessage(old(content), user).Some? ==> busy == old(busy)
      ensures GuardMessage(old(content), user).None? ==> busyAtInsert && busy == Idle
      ensures GuardMessage(old(content), user).Some? ==> store.entries == old(store.entries)
      ensures GuardMessage(old(content), user).None? && RowReturned(reply) ==> store.entries == [reply.data.value] + old(store.entries)
      ensures GuardMessage(old(content), user).None? && !RowReturned(reply) ==> store.entries == old(store.entries)
    {
      var text := content;
      var blocked := GuardMessage(text, user);
      if blocked.Some? {
        trace, busyAtInsert, mood := [Alert("Error", blocked.value)], false, "";
      } else {
        busy := Busy(true, true);
        busyAtInsert := busy.loading && busy.analyzing;
        trace, mood := AnalyzeAndInsertChecked(text, user.value, reply);
        HandOver(reply, store);
        busy := Idle;
      }
    }
  }
}
