/**
 * The logic of screens/ResetPasswordScreen.tsx: the screen's mode, the email
 * rule of the request form, the required rules of the update form, and the
 * two submit handlers with their guard order. The auth collaborator is
 * represented by its answer; alerts and navigations are returned as a trace.
 */
module ResetPassword {
  import opened Wrappers
  import opened Text

  const RequestMode := "request"
  const UpdateMode := "update"

  /** `mode = 'request'` for an absent parameter, then `mode === 'update'`. */
  function IsUpdateMode(mode: Option<string>): (update: bool)
    ensures update <==> mode == Some(UpdateMode)
    ensures mode.None? ==> !update
  {
    var m := if mode.None? then RequestMode else mode.value;
    m == UpdateMode
  }

  /**
   * How a match of the unanchored `/\S+@\S+\.\S+/` can be decided locally: an
   * `@` with a non-whitespace character before it, then one or more
   * non-whitespace characters, a `.`, and a non-whitespace character.
   */
  predicate PatternAt(s: string, at: int, dot: int)
  {
    0 < at && at + 1 < dot && dot + 1 < |s| && s[at] == '@' && s[dot] == '.' && NoSpace(s[at - 1..dot + 2])
  }

  predicate RequestEmailPattern(s: string)
  {
    exists at, dot | 0 < at < dot < |s| :: PatternAt(s, at, dot)
  }

  /** A whitespace-free `a@b.c` with `a`, `b` and `c` non-empty. */
  predicate EmailShaped(t: string)
  {
    NoSpace(t) && exists i, j | 0 < i < j < |t| :: t[i] == '@' && i + 1 < j && t[j] == '.' && j + 1 < |t|
  }

  predicate InfixAt(s: string, t: string, lo: int)
  {
    0 <= lo && lo + |t| <= |s| && s[lo..lo + |t|] == t
  }

  /** The rule's meaning: some part of `s` has the shape `a@b.c`. */
  predicate HasEmailShape(s: string)
  {
    exists lo, hi | 0 <= lo <= hi <= |s| :: EmailShaped(s[lo..hi])
  }

  lemma PatternGivesShape(s: string, at: int, dot: int)
    requires PatternAt(s, at, dot)
    ensures HasEmailShape(s)
  {
    var t := s[at - 1..dot + 2];
    assert t[1] == '@' && t[dot - at + 1] == '.';
    assert EmailShaped(t);
  }

  lemma ShapeGivesPattern(s: string, lo: int, hi: int)
    requires 0 <= lo <= hi <= |s| && EmailShaped(s[lo..hi])
    ensures RequestEmailPattern(s)
  {
    var t := s[lo..hi];
    var i, j :| 0 < i < j < |t| && t[i] == '@' && i + 1 < j && t[j] == '.' && j + 1 < |t|;
    var at, dot := lo + i, lo + j;
    var window := s[at - 1..dot + 2];
    forall k | 0 <= k < |window| ensures !IsSpace(window[k]) {
      assert window[k] == s[at - 1 + k] == t[i - 1 + k];
    }
    assert PatternAt(s, at, dot);
  }

  /** The request form's email rule accepts exactly the strings containing a whitespace-free `a@b.c`. */
  lemma RequestEmailPatternMeaning(s: string)
    ensures RequestEmailPattern(s) <==> HasEmailShape(s)
  {
    if RequestEmailPattern(s) {
      var at, dot :| 0 < at < dot < |s| && PatternAt(s, at, dot);
      PatternGivesShape(s, at, dot);
    }
    if HasEmailShape(s) {
      var lo, hi :| 0 <= lo <= hi <= |s| && EmailShaped(s[lo..hi]);
      ShapeGivesPattern(s, lo, hi);
    }
  }

  /** The email field's message: `required` first, then the pattern. */
  function RequestEmailError(email: string): (message: Option<string>)
    ensures message == Some("Email is required") <==> email == ""
    ensures message.None? <==> email != "" && RequestEmailPattern(email)
  {
    if email == "" then Some("Email is required")
    else if !RequestEmailPattern(email) then Some("Invalid email address")
    else None
  }

  /** The update form's messages: both fields are required, checked in field order. */
  function UpdateFieldsError(newPassword: string, confirmPassword: string): (message: Option<string>)
    ensures message.None? <==> newPassword != "" && confirmPassword != ""
    ensures newPassword == "" ==> message == Some("New password is required")
  {
    if newPassword == "" then Some("New password is required")
    else if confirmPassword == "" then Some("Confirm password is required")
    else None
  }

  /** What the auth collaborator answered: no error, or an error (returned or thrown) with its message. */
  datatype AuthOutcome = Succeeded | Failed(message: string)

  datatype Effect =
    | ResetPasswordCall(email: string)
    | UpdatePasswordCall(password: string)
    | Alert(message: string)
    | Back
    | Replace(path: string)

  const MinPasswordLength := 6
  const JournalRoute := "/journal"

  /** `error.message || 'Unexpected error occurred'`. */
  function ErrorText(message: string): (text: string)
    ensures text != ""
    ensures message != "" ==> text == message
    ensures message == "" ==> text == "Unexpected error occurred"
  {
    if message != "" then message else "Unexpected error occurred"
  }

  /** The calls and alerts of `onRequestReset` for the collaborator's outcome. */
  function RequestResetTrace(email: string, outcome: AuthOutcome): seq<Effect>
  {
    if outcome.Failed? then [ResetPasswordCall(email), Alert(ErrorText(outcome.message))]
    else [ResetPasswordCall(email), Alert("Reset email sent. Check your inbox."), Back]
  }

  /** The calls and alerts of `onUpdatePassword`: the two checks in order, then the update call. */
  function UpdatePasswordTrace(newPassword: string, confirmPassword: string, outcome: AuthOutcome): seq<Effect>
  {
    if newPassword != confirmPassword then [Alert("Passwords do not match")]
    else if |newPassword| < MinPasswordLength then [Alert("Password must be at least 6 characters")]
    else if outcome.Failed? then [UpdatePasswordCall(newPassword), Alert(ErrorText(outcome.message))]
    else [UpdatePasswordCall(newPassword), Alert("Password updated successfully"), Replace(JournalRoute)]
  }

  /** `onRequestReset`: ask for the reset email; go back only on success. */
  method OnRequestReset(email: string, outcome: AuthOutcome) returns (trace: seq<Effect>)
    ensures trace == RequestResetTrace(email, outcome)
    ensures |trace| >= 2 && trace[0] == ResetPasswordCall(email)
    ensures outcome.Succeeded? ==> trace == [ResetPasswordCall(email), Alert("Reset email sent. Check your inbox."), Back]
    ensures outcome.Failed? ==> trace == [ResetPasswordCall(email), Alert(ErrorText(outcome.message))]
    ensures Back in trace <==> outcome.Succeeded?
  {
    trace := [ResetPasswordCall(email)];
    if outcome.Failed? {
      trace := trace + [Alert(ErrorText(outcome.message))];
      return;
    }
    trace := trace + [Alert("Reset email sent. Check your inbox."), Back];
  }

  /**
   * `onUpdatePassword`: the mismatch check, then the length check, then the
   * update call; the journal opens only when the update succeeded.
   */
  method OnUpdatePassword(newPassword: string, confirmPassword: string, outcome: AuthOutcome)
    returns (trace: seq<Effect>)
    ensures trace == UpdatePasswordTrace(newPassword, confirmPassword, outcome)
    ensures newPassword != confirmPassword ==> trace == [Alert("Passwords do not match")]
    ensures newPassword == confirmPassword && |newPassword| < MinPasswordLength ==>
              trace == [Alert("Password must be at least 6 characters")]
    ensures UpdatePasswordCall(newPassword) in trace <==>
              newPassword == confirmPassword && |newPassword| >= MinPasswordLength
    ensures forall e :: e in trace && e.UpdatePasswordCall? ==> e == UpdatePasswordCall(newPassword)
    ensures Replace(JournalRoute) in trace <==>
              newPassword == confirmPassword && |newPassword| >= MinPasswordLength && outcome.Succeeded?
    ensures newPassword == confirmPassword && |newPassword| >= MinPasswordLength && outcome.Failed? ==>
              trace == [UpdatePasswordCall(newPassword), Alert(ErrorText(outcome.message))]
    ensures newPassword == confirmPassword && |newPassword| >= MinPasswordLength && outcome.Succeeded? ==>
              trace == [UpdatePasswordCall(newPassword), Alert("Password updated successfully"), Replace(JournalRoute)]
  {
    if newPassword != confirmPassword {
      return [Alert("Passwords do not match")];
    }
    if |newPassword| < MinPasswordLength {
      return [Alert("Password must be at least 6 characters")];
    }
    trace := [UpdatePasswordCall(newPassword)];
    if outcome.Failed? {
      trace := trace + [Alert(ErrorText(outcome.message))];
      return;
    }
    trace := trace + [Alert("Password updated successfully"), Replace(JournalRoute)];
  }

  /** Pressing the button: `handleSubmit` runs the handler of the mode only when its fields pass their rules. */
  method Submit(mode: Option<string>, email: string, newPassword: string, confirmPassword: string, outcome: AuthOutcome)
    returns (trace: seq<Effect>)
    ensures IsUpdateMode(mode) && UpdateFieldsError(newPassword, confirmPassword).Some? ==> trace == []
    ensures !IsUpdateMode(mode) && RequestEmailError(email).Some? ==> trace == []
    ensures ResetPasswordCall(email) in trace <==> !IsUpdateMode(mode) && RequestEmailError(email).None?
    ensures IsUpdateMode(mode) && UpdateFieldsError(newPassword, confirmPassword).None? ==>
              trace == UpdatePasswordTrace(newPassword, confirmPassword, outcome)
    ensures !IsUpdateMode(mode) && RequestEmailError(email).None? ==> trace == RequestResetTrace(email, outcome)
    ensures IsUpdateMode(mode) ==> forall e :: e in trace ==> !e.ResetPasswordCall?
    ensures !IsUpdateMode(mode) ==> forall e :: e in trace ==> !e.UpdatePasswordCall?
  {
    if IsUpdateMode(mode) {
      if UpdateFieldsError(newPassword, confirmPassword).Some? {
        return [];
      }
      trace := OnUpdatePassword(newPassword, confirmPassword, outcome);
    } else {
      if RequestEmailError(email).Some? {
        return [];
      }
      trace := OnRequestReset(email, outcome);
    }
  }
}
