/**
 * The logic of components/AuthForm.tsx: the email and password rules, and
 * `onSubmit`, which signs in or signs up, reports the outcome and keeps a
 * `loading` flag raised while the call is outstanding. The auth collaborator
 * is represented by its answer; alerts and navigations are returned as a
 * trace.
 */
module AuthForm {
  import opened Wrappers
  import opened Text

  /**
   * A match of the anchored `/^[^\s@]+@[^\s@]+\.[^\s@]+$/`, with the split it
   * makes: `s[..at]`, `s[at + 1..dot]` and `s[dot + 1..]` are non-empty and
   * hold neither whitespace nor `@`.
   */
  predicate LoginPatternAt(s: string, at: int, dot: int)
  {
    0 < at && at + 1 < dot && dot + 1 < |s| && s[at] == '@' && s[dot] == '.'
    && NoSpace(s) && '@' !in s[..at] && '@' !in s[at + 1..]
  }

  predicate LoginEmailPattern(s: string)
  {
    exists at, dot | 0 < at < dot < |s| :: LoginPatternAt(s, at, dot)
  }

  /**
   * The rule's meaning: no whitespace, exactly one `@`, a non-empty local
   * part, and a `.` in the domain with text on both sides.
   */
  predicate WellFormedEmail(s: string)
  {
    && NoSpace(s)
    && '@' in s
    && (forall i, j :: 0 <= i < j < |s| && s[i] == '@' ==> s[j] != '@')
    && var at := IndexOf(s, '@');
       at > 0 && exists dot | at + 1 < dot < |s| - 1 :: s[dot] == '.'
  }

  /** The login form's email pattern accepts exactly the well-formed addresses. */
  lemma LoginEmailPatternMeaning(s: string)
    ensures LoginEmailPattern(s) <==> WellFormedEmail(s)
  {
    if LoginEmailPattern(s) {
      var at, dot :| 0 < at < dot < |s| && LoginPatternAt(s, at, dot);
      var local, domain := s[..at], s[at + 1..];
      assert IndexOf(s, '@') == at by {
        assert s == local + [s[at]] + domain;
        IndexOfAfterFree(local, '@', domain);
      }
      forall i | 0 <= i < |s| && i != at ensures s[i] != '@' {
        if i < at {
          assert s[i] == local[i];
        } else {
          assert s[i] == domain[i - at - 1];
        }
      }
    }
    if WellFormedEmail(s) {
      var at := IndexOf(s, '@');
      var dot :| at + 1 < dot < |s| - 1 && s[dot] == '.';
      var domain := s[at + 1..];
      forall k | 0 <= k < |domain| ensures domain[k] != '@' {
        assert domain[k] == s[at + 1 + k];
      }
      assert LoginPatternAt(s, at, dot);
    }
  }

  /** The email field's message: `required` first, then the pattern. */
  function EmailError(email: string): (message: Option<string>)
    ensures message == Some("Email is required") <==> email == ""
    ensures message.None? <==> WellFormedEmail(email)
  {
    LoginEmailPatternMeaning(email);
    if email == "" then Some("Email is required")
    else if !LoginEmailPattern(email) then Some("Invalid email")
    else None
  }

  const MinPasswordLength := 6

  /** The password field's message: `required` first, then `minLength`. */
  function PasswordError(password: string): (message: Option<string>)
    ensures message == Some("Password is required") <==> password == ""
    ensures message.None? <==> |password| >= MinPasswordLength
  {
    if password == "" then Some("Password is required")
    else if |password| < MinPasswordLength then Some("Min 6 chars")
    else None
  }

  datatype Kind = Login | Register

  /** `signIn`/`signUp` either resolved with `error` set or not (its message possibly empty), or threw. */
  datatype AuthReply = Resolved(error: Option<string>) | Threw

  datatype Effect =
    | SignIn(email: string, password: string)
    | SignUp(email: string, password: string)
    | Alert(title: string, message: string)
    | Replace(path: string)

  const JournalRoute := "/journal"

  function FailureTitle(kind: Kind): (title: string)
    ensures title == "Login Failed" <==> kind.Login?
    ensures title == "Registration Failed" <==> kind.Register?
  {
    if kind == Login then "Login Failed" else "Registration Failed"
  }

  /** `result.error.message || 'Invalid credentials'`. */
  function CredentialsText(message: string): (text: string)
    ensures text != ""
    ensures message != "" ==> text == message
    ensures message == "" ==> text == "Invalid credentials"
  {
    if message != "" then message else "Invalid credentials"
  }

  /** The call `onSubmit` makes for the kind of form. */
  function Call(kind: Kind, email: string, password: string): (call: Effect)
    ensures call.SignIn? <==> kind.Login?
    ensures call.SignIn? ==> call == SignIn(email, password)
    ensures call.SignUp? ==> call == SignUp(email, password)
  {
    if kind == Login then SignIn(email, password) else SignUp(email, password)
  }

  /**
   * What one run of `onSubmit(data, kind)` does for a reply: the call, then
   * the failure alert, the unexpected-error alert, or (for a registration
   * only) the success alert followed by the navigation to the journal.
   */
  function SubmitTrace(kind: Kind, email: string, password: string, reply: AuthReply): (t: seq<Effect>)
    ensures 2 <= |t| <= 3 && t[0] == Call(kind, email, password)
    ensures Replace(JournalRoute) in t <==> reply == Resolved(None)
    ensures Alert("Success", "Account created successfully!") in t <==> kind == Register && reply == Resolved(None)
    ensures reply != Resolved(None) ==> |t| == 2 && t[1].Alert? && t[1].title != "Success"
  {
    var call := Call(kind, email, password);
    match reply
    case Threw => [call, Alert("Error", "An unexpected error occurred")]
    case Resolved(error) =>
      if error.Some? then [call, Alert(FailureTitle(kind), CredentialsText(error.value))]
      else if kind == Register then [call, Alert("Success", "Account created successfully!"), Replace(JournalRoute)]
      else [call, Replace(JournalRoute)]
  }

  class AuthFormState {
    var loading: bool

    constructor ()
      ensures !loading
    {
      loading := false;
    }

    /**
     * `onSubmit(data, kind)`: the call for the kind, then the report. Only a
     * resolved call without error navigates; only a registration reports
     * success. `loadingAtCall` is the flag while the call is outstanding.
     */
    method Submit(kind: Kind, email: string, password: string, reply: AuthReply)
      returns (trace: seq<Effect>, loadingAtCall: bool)
      modifies this
      ensures loadingAtCall && !loading
      ensures trace == SubmitTrace(kind, email, password, reply)
      ensures |trace| >= 2
      ensures trace[0] == if kind == Login then SignIn(email, password) else SignUp(email, password)
      ensures Replace(JournalRoute) in trace <==> reply == Resolved(None)
      ensures Alert("Success", "Account created successfully!") in trace <==> kind == Register && reply == Resolved(None)
      ensures reply.Resolved? && reply.error.Some? ==>
                trace == [trace[0], Alert(FailureTitle(kind), CredentialsText(reply.error.value))]
      ensures reply.Threw? ==> trace == [trace[0], Alert("Error", "An unexpected error occurred")]
      ensures reply == Resolved(None) ==>
                trace == [trace[0]] + (if kind == Register then [Alert("Success", "Account created successfully!")] else [])
                         + [Replace(JournalRoute)]
    {
      loading := true;
      loadingAtCall := loading;
      var call := Call(kind, email, password);
      trace := [call];
      match reply {
        case Threw =>
          trace := trace + [Alert("Error", "An unexpected error occurred")];
        case Resolved(error) =>
          if error.Some? {
            trace := trace + [Alert(FailureTitle(kind), CredentialsText(error.value))];
          } else {
            if kind == Register {
              trace := trace + [Alert("Success", "Account created successfully!")];
            }
            trace := trace + [Replace(JournalRoute)];
          }
      }
      loading := false;
    }

    /** A button press: `handleSubmit` calls `onSubmit` only when both fields pass their rules. */
    method Press(kind: Kind, email: string, password: string, reply: AuthReply)
      returns (trace: seq<Effect>)
      modifies this
      ensures trace == [] <==> EmailError(email).Some? || PasswordError(password).Some?
      ensures trace != [] ==> trace[0] == if kind == Login then SignIn(email, password) else SignUp(email, password)
      ensures trace == [] ==> loading == old(loading)
      ensures trace != [] ==> !loading
      ensures trace == if EmailError(email).Some? || PasswordError(password).Some? then []
                       else SubmitTrace(kind, email, password, reply)
    {
      if EmailError(email).Some? || PasswordError(password).Some? {
        return [];
      }
      var loadingAtCall;
      trace, loadingAtCall := Submit(kind, email, password, reply);
    }
  }
}
