/**
 * The `login-fail-test` state machine: nine atomic states (two of them
 * children of the compound `invalid` state), three events, and for each
 * (state, event) pair an ordered list of guarded targets evaluated
 * first-match-wins. An event a state does not list, or one whose guards all
 * fail, leaves the machine where it is.
 */
module LoginMachine {
  import opened Wrappers
  import opened LoginValidation

  /** The atomic states of the machine; `invalid.username` and `invalid.password` sit under `invalid`. */
  datatype State =
    | Pristine
    | InvalidUsername
    | InvalidPassword
    | Valid
    | CorrectCredentials
    | IncorrectCredentials
    | Retry
    | Success
    | Locked

  /** The events the machine responds to; only FILL_FORM carries a payload. */
  datatype Event = FillForm(form: FillEvent) | Submit | RetryLogin

  /** The event's type tag, the key of a state's `on` table. */
  datatype EventType = FILL_FORM | SUBMIT | RETRY

  function TypeOf(e: Event): EventType {
    match e
    case FillForm(_) => FILL_FORM
    case Submit => SUBMIT
    case RetryLogin => RETRY
  }

  /** The `cond` of a transition; `Always` stands for a transition with no `cond`. */
  datatype Guard = UsernameInvalid | PasswordInvalid | CredentialsMatch | LoginValid | Always

  /** One entry of a transition list: a guard and the state it selects. */
  datatype Candidate = Candidate(guard: Guard, target: State)

  /** `initial: 'pristine'`: the one initial state. */
  const Initial: State := Pristine

  /** The states declared `type: 'final'`. */
  predicate IsFinal(s: State) {
    s == Success || s == Locked
  }

  /** The key chain of a state in the nested `states` declaration. */
  function Path(s: State): seq<string> {
    match s
    case Pristine => ["pristine"]
    case InvalidUsername => ["invalid", "username"]
    case InvalidPassword => ["invalid", "password"]
    case Valid => ["valid"]
    case CorrectCredentials => ["correctCredentials"]
    case IncorrectCredentials => ["incorrectCredentials"]
    case Retry => ["retry"]
    case Success => ["success"]
    case Locked => ["locked"]
  }

  /** Evaluates a guard against the event being processed (the machine has no context). */
  predicate Holds(g: Guard, e: Event) {
    match g
    case UsernameInvalid => e.FillForm? && !IsValidUsername(e.form.username)
    case PasswordInvalid => e.FillForm? && !IsValidPassword(e.form.password)
    case CredentialsMatch => e.FillForm? && AreValidCredentials(e.form)
    case LoginValid => e.FillForm? && IsValidLogin(e.form)
    case Always => true
  }

  /** The `on` table: the ordered candidates a state lists for an event type. */
  function Transitions(s: State, t: EventType): seq<Candidate> {
    match (s, t)
    case (Pristine, FILL_FORM) =>
      [ Candidate(UsernameInvalid, InvalidUsername),
        Candidate(PasswordInvalid, InvalidPassword),
        Candidate(CredentialsMatch, CorrectCredentials),
        Candidate(LoginValid, Valid) ]
    case (Valid, SUBMIT) => [Candidate(Always, IncorrectCredentials)]
    case (CorrectCredentials, SUBMIT) => [Candidate(Always, Success)]
    case (IncorrectCredentials, RETRY) => [Candidate(Always, Retry)]
    case (Retry, SUBMIT) => [Candidate(Always, Locked)]
    case _ => []
  }

  /**
   * First-match-wins guard evaluation: the target of the first candidate whose
   * guard holds, or None when no guard holds (including an empty list).
   */
  function Select(cs: seq<Candidate>, e: Event): Option<State> {
    if |cs| == 0 then None
    else if Holds(cs[0].guard, e) then Some(cs[0].target)
    else Select(cs[1..], e)
  }

  /** The candidate at index `i` is the first one whose guard holds. */
  predicate IsFirstMatch(cs: seq<Candidate>, e: Event, i: int) {
    0 <= i < |cs| && Holds(cs[i].guard, e) && forall j :: 0 <= j < i ==> !Holds(cs[j].guard, e)
  }

  /**
   * Select returns None exactly when no guard holds, and otherwise the target
   * of the first candidate whose guard holds.
   */
  lemma {:induction false} SelectIsFirstMatch(cs: seq<Candidate>, e: Event)
    ensures Select(cs, e).None? <==> forall i :: 0 <= i < |cs| ==> !Holds(cs[i].guard, e)
    ensures Select(cs, e).Some? ==> exists i :: IsFirstMatch(cs, e, i) && Select(cs, e).value == cs[i].target
  {
    if |cs| > 0 {
      if Holds(cs[0].guard, e) {
        assert IsFirstMatch(cs, e, 0);
      } else {
        SelectIsFirstMatch(cs[1..], e);
        assert forall i :: 1 <= i < |cs| ==> cs[1..][i - 1] == cs[i];
        if Select(cs, e).Some? {
          var k :| IsFirstMatch(cs[1..], e, k) && Select(cs[1..], e).value == cs[1..][k].target;
          assert IsFirstMatch(cs, e, k + 1);
        }
      }
    }
  }

  /** Guard evaluation is deterministic: the first matching candidate is unique. */
  lemma FirstMatchIsUnique(cs: seq<Candidate>, e: Event, i: int, j: int)
    requires IsFirstMatch(cs, e, i) && IsFirstMatch(cs, e, j)
    ensures i == j
  {
  }

  /** The transition an event takes from a state, or None when the event is ignored there. */
  function Step(s: State, e: Event): Option<State> {
    Select(Transitions(s, TypeOf(e)), e)
  }

  /** The state after processing one event: an ignored event leaves the state unchanged. */
  function Next(s: State, e: Event): State {
    Step(s, e).GetOr(s)
  }

  /** The state after processing a sequence of events in order. */
  function Run(s: State, es: seq<Event>): State
    decreases |es|
  {
    if es == [] then s else Run(Next(s, es[0]), es[1..])
  }

  /** Breadth-first distance of each state from `pristine` in the transition graph. */
  function Depth(s: State): nat {
    match s
    case Pristine => 0
    case InvalidUsername | InvalidPassword | Valid | CorrectCredentials => 1
    case IncorrectCredentials | Success => 2
    case Retry => 3
    case Locked => 4
  }
}
