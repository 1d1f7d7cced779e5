/**
 * What the login machine guarantees: how FILL_FORM from `pristine` is
 * resolved by its ordered guards, the success and lockout paths, final and
 * dead-end states, and reachability in the (acyclic) transition graph.
 */
module LoginProperties {
  import opened Wrappers
  import opened LoginValidation
  import opened LoginMachine

  // ---------------------------------------------------------------------------
  // FILL_FORM from pristine: ordered, first-match-wins guards
  // ---------------------------------------------------------------------------

  /**
   * The four guards are exhaustive and each target is selected exactly under
   * its own condition: the credential guard fires exactly for the admin pair
   * (which is individually valid), and `valid` is selected exactly for
   * individually valid input that is not the admin pair.
   */
  lemma FillFormOutcome(f: FillEvent)
    ensures Step(Pristine, FillForm(f)).Some?
    ensures Step(Pristine, FillForm(f)) == Some(InvalidUsername) <==> !IsValidUsername(f.username)
    ensures Step(Pristine, FillForm(f)) == Some(InvalidPassword) <==>
              IsValidUsername(f.username) && !IsValidPassword(f.password)
    ensures Step(Pristine, FillForm(f)) == Some(CorrectCredentials) <==> AreValidCredentials(f)
    ensures Step(Pristine, FillForm(f)) == Some(Valid) <==> IsValidLogin(f) && !AreValidCredentials(f)
  {
    var u, p, c, l := IsValidUsername(f.username), IsValidPassword(f.password), AreValidCredentials(f), IsValidLogin(f);
    PristineFillGuards(f, u, p, c, l);
    CredentialsAreValidLogin(f);
  }

  /** The pristine FILL_FORM list unfolded, with the four guard values named. */
  lemma PristineFillGuards(f: FillEvent, u: bool, p: bool, c: bool, l: bool)
    requires u == IsValidUsername(f.username) && p == IsValidPassword(f.password)
    requires c == AreValidCredentials(f) && l == IsValidLogin(f)
    ensures l == (u && p)
    ensures Step(Pristine, FillForm(f)) ==
              if !u then Some(InvalidUsername) else if !p then Some(InvalidPassword)
              else if c then Some(CorrectCredentials) else Some(Valid)
  {
    var e := FillForm(f);
    var cs := Transitions(Pristine, FILL_FORM);
    assert Holds(cs[0].guard, e) == !u && Holds(cs[1].guard, e) == !p;
    assert Holds(cs[2].guard, e) == c && Holds(cs[3].guard, e) == l;
    assert cs[1..][1..][1..] == [cs[3]];
    assert Select(cs[1..][1..][1..][1..], e) == None;
  }

  /**
   * The pristine FILL_FORM guard list always has a first match: its last
   * guard holds whenever the first two fail. The credential guard is the
   * first match exactly for the admin pair, and the last guard exactly for
   * individually valid input that is not the admin pair.
   */
  lemma PristineGuardListIsExhaustive(f: FillEvent)
    ensures exists i :: IsFirstMatch(Transitions(Pristine, FILL_FORM), FillForm(f), i)
    ensures IsFirstMatch(Transitions(Pristine, FILL_FORM), FillForm(f), 2) <==> AreValidCredentials(f)
    ensures IsFirstMatch(Transitions(Pristine, FILL_FORM), FillForm(f), 3) <==>
              IsValidLogin(f) && !AreValidCredentials(f)
  {
    var cs, e := Transitions(Pristine, FILL_FORM), FillForm(f);
    SelectIsFirstMatch(cs, e);
    FillFormOutcome(f);
    // The first match k exists and its target is what Select returns; the
    // four targets are distinct, so k is fixed by the selected state.
    var k :| IsFirstMatch(cs, e, k) && Select(cs, e).value == cs[k].target;
    forall i | IsFirstMatch(cs, e, i) ensures i == k {
      FirstMatchIsUnique(cs, e, i, k);
    }
  }

  /** An invalid username selects `invalid.username` whatever the password: that guard is checked first. */
  lemma UsernameCheckedFirst(username: string, password: string)
    requires !IsValidUsername(username)
    ensures Next(Pristine, FillForm(FillEvent(username, password))) == InvalidUsername
  {
    FillFormOutcome(FillEvent(username, password));
  }

  /** A blank or too-short password with a valid username selects `invalid.password`. */
  lemma InvalidPasswordSelected(username: string, password: string)
    requires IsValidUsername(username)
    requires AllWhitespace(password) || |password| < MinPasswordLength
    ensures Next(Pristine, FillForm(FillEvent(username, password))) == InvalidPassword
  {
    TrimEmptyIffAllWhitespace(password);
    FillFormOutcome(FillEvent(username, password));
  }

  /** The fixed case with username 'user' (four characters) selects `invalid.username` for every password. */
  lemma UserCaseSelectsInvalidUsername(password: string)
    ensures Next(Pristine, FillForm(FillEvent("user", password))) == InvalidUsername
  {
    ShortUsernameIsInvalid("user");
    UsernameCheckedFirst("user", password);
  }

  /** A blank username (empty or whitespace only) selects `invalid.username` for every password. */
  lemma BlankUsernameSelectsInvalidUsername(username: string, password: string)
    requires AllWhitespace(username)
    ensures Next(Pristine, FillForm(FillEvent(username, password))) == InvalidUsername
  {
    BlankFieldIsEmpty(username);
    UsernameCheckedFirst(username, password);
  }

  /** Four spaces and one other character pass the username guard: length is taken before trimming. */
  lemma PaddedUsernamePassesFirstGuard(c: char, password: string)
    requires !IsWhitespace(c)
    ensures Next(Pristine, FillForm(FillEvent("    " + [c], password))) != InvalidUsername
  {
    PaddedUsernameIsValid(c);
    FillFormOutcome(FillEvent("    " + [c], password));
  }

  /**
   * The admin pair (the only input that `areValidCredentials` accepts) selects
   * `correctCredentials`, and SUBMIT from there reaches the final `success`.
   */
  lemma AdminLogsIn(f: FillEvent)
    requires AreValidCredentials(f)
    ensures f == FillEvent("admin", "Pa$$w0rd!")
    ensures Next(Pristine, FillForm(f)) == CorrectCredentials
    ensures Run(Pristine, [FillForm(f), Submit]) == Success
  {
    CredentialsSelectCorrectCredentials(f);
    RunTwo(Pristine, FillForm(f), Submit);
    SubmitFromCorrectCredentials(Next(Pristine, FillForm(f)));
  }

  lemma SubmitFromCorrectCredentials(s: State)
    requires s == CorrectCredentials
    ensures Next(s, Submit) == Success
  {
  }

  lemma CredentialsSelectCorrectCredentials(f: FillEvent)
    requires AreValidCredentials(f)
    ensures Next(Pristine, FillForm(f)) == CorrectCredentials
  {
    FillFormOutcome(f);
  }

  /**
   * Individually valid but wrong credentials select `valid`; SUBMIT gives
   * `incorrectCredentials`, RETRY gives `retry` and a second SUBMIT the final `locked`.
   */
  lemma WrongCredentialsLockOut(f: FillEvent)
    requires IsValidLogin(f) && !AreValidCredentials(f)
    ensures Next(Pristine, FillForm(f)) == Valid
    ensures Run(Pristine, [FillForm(f), Submit]) == IncorrectCredentials
    ensures Run(Pristine, [FillForm(f), Submit, RetryLogin]) == Retry
    ensures Run(Pristine, [FillForm(f), Submit, RetryLogin, Submit]) == Locked
  {
    FillFormOutcome(f);
    RunTwo(Pristine, FillForm(f), Submit);
    RunFour(Pristine, FillForm(f), Submit, RetryLogin, Submit);
  }

  /** Running `[a] + es` is processing `a` and then running `es`. */
  lemma RunCons(s: State, a: Event, es: seq<Event>)
    ensures Run(s, [a] + es) == Run(Next(s, a), es)
  {
    assert ([a] + es)[1..] == es;
  }

  lemma RunTwo(s: State, a: Event, b: Event)
    ensures Run(s, [a, b]) == Next(Next(s, a), b)
  {
    RunCons(s, a, [b]);
    assert [a] + [b] == [a, b];
    RunCons(Next(s, a), b, []);
    assert [b] + [] == [b];
  }

  lemma RunFour(s: State, a: Event, b: Event, c: Event, d: Event)
    ensures Run(s, [a, b, c]) == Next(Next(Next(s, a), b), c)
    ensures Run(s, [a, b, c, d]) == Next(Next(Next(Next(s, a), b), c), d)
  {
    RunCons(s, a, [b, c]);
    assert [a] + [b, c] == [a, b, c];
    RunTwo(Next(s, a), b, c);
    RunCons(s, a, [b, c, d]);
    assert [a] + [b, c, d] == [a, b, c, d];
    RunCons(Next(s, a), b, [c, d]);
    assert [b] + [c, d] == [b, c, d];
    RunTwo(Next(Next(s, a), b), c, d);
  }

  // ---------------------------------------------------------------------------
  // Ignored events, final states and dead ends
  // ---------------------------------------------------------------------------

  /** A state that lists no transition for any event type. */
  predicate IsDeadEnd(s: State) {
    Transitions(s, FILL_FORM) == [] && Transitions(s, SUBMIT) == [] && Transitions(s, RETRY) == []
  }

  /**
   * An event leaves the state unchanged exactly when it selects no transition
   * (no candidate targets the state that lists it), and in this machine that
   * happens exactly when the state lists nothing for the event's type: no
   * guard list of the machine ever fails entirely.
   */
  lemma IgnoredExactlyWhenUnlisted(s: State, e: Event)
    ensures Next(s, e) == s <==> Step(s, e).None?
    ensures Step(s, e).None? <==> Transitions(s, TypeOf(e)) == []
  {
    if e.FillForm? && s == Pristine {
      FillFormOutcome(e.form);
    }
  }

  /**
   * The dead ends are exactly the two final states and the two `invalid`
   * children, which declare no transitions although they are not final.
   */
  lemma DeadEnds(s: State)
    ensures IsDeadEnd(s) <==> IsFinal(s) || s == InvalidUsername || s == InvalidPassword
  {
  }

  /** No sequence of events moves the machine out of a dead end (in particular out of a final state). */
  lemma {:induction false} DeadEndAbsorbs(s: State, es: seq<Event>)
    requires IsDeadEnd(s)
    ensures Run(s, es) == s
    decreases |es|
  {
    if es != [] {
      assert Transitions(s, TypeOf(es[0])) == [];
      DeadEndAbsorbs(s, es[1..]);
    }
  }

  // ---------------------------------------------------------------------------
  // The transition graph is layered by breadth-first depth, hence acyclic
  // ---------------------------------------------------------------------------

  /** Every transition that is taken goes exactly one layer deeper. */
  lemma StepRaisesDepth(s: State, e: Event)
    ensures Next(s, e) != s ==> Depth(Next(s, e)) == Depth(s) + 1
  {
    if e.FillForm? && s == Pristine {
      FillFormOutcome(e.form);
    }
  }

  /**
   * Along any run the depth never decreases and grows by at most one per
   * event; a run that ends elsewhere than it started ends strictly deeper.
   */
  lemma {:induction false} RunDepth(s: State, es: seq<Event>)
    ensures Depth(s) <= Depth(Run(s, es)) <= Depth(s) + |es|
    ensures Run(s, es) != s ==> Depth(s) < Depth(Run(s, es))
    decreases |es|
  {
    if es != [] {
      StepRaisesDepth(s, es[0]);
      RunDepth(Next(s, es[0]), es[1..]);
    }
  }

  /** A run that has left a state never comes back to it, whatever events follow. */
  lemma NoReturn(s: State, a: seq<Event>, b: seq<Event>)
    requires Run(s, a) != s
    ensures Run(Run(s, a), b) != s
  {
    RunDepth(s, a);
    RunDepth(Run(s, a), b);
  }

  /** No run from the initial state reaches a state in fewer events than its depth. */
  lemma ShortestRunLength(es: seq<Event>)
    ensures |es| >= Depth(Run(Initial, es))
  {
    RunDepth(Pristine, es);
  }

  /**
   * Representative FILL_FORM payloads, one per guard branch; the first pairs
   * 'user' with a 7-character password, like the first fixed case.
   */
  const ShortUsernameFill: FillEvent := FillEvent("user", "pass123")
  const ShortPasswordFill: FillEvent := FillEvent("admin", "short")
  const AdminFill: FillEvent := FillEvent(AdminUsername, AdminPassword)
  const WrongPasswordFill: FillEvent := FillEvent("admin", "password")

  /** A shortest run from the initial state to each state: its length is the state's depth. */
  function ShortestRun(t: State): (es: seq<Event>)
    ensures |es| == Depth(t)
    ensures Run(Initial, es) == t
  {
    match t
    case Pristine => []
    case InvalidUsername => ShortUsernameRun()
    case InvalidPassword => ShortPasswordRun()
    case CorrectCredentials => AdminRun(1)
    case Success => AdminRun(2)
    case Valid => WrongPasswordRun(1)
    case IncorrectCredentials => WrongPasswordRun(2)
    case Retry => WrongPasswordRun(3)
    case Locked => WrongPasswordRun(4)
  }

  /** FILL_FORM with the fixed 'user' case: one event to `invalid.username`. */
  function ShortUsernameRun(): (es: seq<Event>)
    ensures |es| == 1 && Run(Pristine, es) == InvalidUsername
  {
    ShortUsernameFillIsInvalid();
    UsernameCheckedFirst(ShortUsernameFill.username, ShortUsernameFill.password);
    OneEventRun(ShortUsernameFill, InvalidUsername)
  }

  /** FILL_FORM with a valid username and a short password: one event to `invalid.password`. */
  function ShortPasswordRun(): (es: seq<Event>)
    ensures |es| == 1 && Run(Pristine, es) == InvalidPassword
  {
    ShortPasswordFillIsInvalid();
    InvalidPasswordSelected(ShortPasswordFill.username, ShortPasswordFill.password);
    OneEventRun(ShortPasswordFill, InvalidPassword)
  }

  /** The first `n` events of the admin login: to `correctCredentials`, then `success`. */
  function AdminRun(n: nat): (es: seq<Event>)
    requires 1 <= n <= 2
    ensures |es| == n && Run(Pristine, es) == (if n == 1 then CorrectCredentials else Success)
  {
    AdminFillMatches();
    AdminLogsIn(AdminFill);
    if n == 1 then OneEventRun(AdminFill, CorrectCredentials) else [FillForm(AdminFill), Submit]
  }

  /** The first `n` events of the lockout path with a valid but wrong password. */
  function WrongPasswordRun(n: nat): (es: seq<Event>)
    requires 1 <= n <= 4
    ensures |es| == n
    ensures Run(Pristine, es) == [Valid, IncorrectCredentials, Retry, Locked][n - 1]
  {
    WrongPasswordFillIsValid();
    WrongCredentialsLockOut(WrongPasswordFill);
    var f := WrongPasswordFill;
    if n == 1 then OneEventRun(f, Valid)
    else if n == 2 then [FillForm(f), Submit]
    else if n == 3 then [FillForm(f), Submit, RetryLogin]
    else [FillForm(f), Submit, RetryLogin, Submit]
  }

  /** The one-event run that a FILL_FORM from `pristine` makes. */
  function OneEventRun(f: FillEvent, t: State): (es: seq<Event>)
    requires Next(Pristine, FillForm(f)) == t
    ensures es == [FillForm(f)] && Run(Pristine, es) == t
  {
    RunCons(Pristine, FillForm(f), []);
    assert [FillForm(f)] + [] == [FillForm(f)];
    [FillForm(f)]
  }

  lemma ShortUsernameFillIsInvalid()
    ensures !IsValidUsername(ShortUsernameFill.username)
  {
    ShortUsernameIsInvalid(ShortUsernameFill.username);
  }

  lemma ShortPasswordFillIsInvalid()
    ensures IsValidUsername(ShortPasswordFill.username) && |ShortPasswordFill.password| < MinPasswordLength
  {
    var u := ShortPasswordFill.username;
    assert !IsWhitespace(u[0]);
    UsernameValidity(u);
  }

  lemma AdminFillMatches()
    ensures AreValidCredentials(AdminFill)
  {
  }

  lemma WrongPasswordFillIsValid()
    ensures IsValidLogin(WrongPasswordFill) && !AreValidCredentials(WrongPasswordFill)
  {
    var u, p := WrongPasswordFill.username, WrongPasswordFill.password;
    assert !IsWhitespace(u[0]) && !IsWhitespace(p[0]);
    UsernameValidity(u);
    PasswordValidity(p);
  }

  // ---------------------------------------------------------------------------
  // What the two final states require
  // ---------------------------------------------------------------------------

  /** Only `correctCredentials` leads to `success`, and only the admin pair leads to `correctCredentials`. */
  lemma {:induction false} SuccessRequiresAdmin(s: State, es: seq<Event>)
    requires s != Success && s != CorrectCredentials
    requires Run(s, es) == Success
    ensures exists i :: 0 <= i < |es| && es[i] == FillForm(FillEvent(AdminUsername, AdminPassword))
    decreases |es|
  {
    var n := Next(s, es[0]);
    if es[0].FillForm? && s == Pristine {
      FillFormOutcome(es[0].form);
    }
    if n == CorrectCredentials {
      assert es[0] == FillForm(FillEvent(AdminUsername, AdminPassword));
    } else {
      assert n != Success;
      SuccessRequiresAdmin(n, es[1..]);
      var i :| 0 <= i < |es[1..]| && es[1..][i] == FillForm(FillEvent(AdminUsername, AdminPassword));
      assert es[i + 1] == es[1..][i];
    }
  }

  /** The states from which `success` is out of reach: once `valid` is entered, only `locked` can end the flow. */
  predicate OnLockoutBranch(s: State) {
    s == Valid || s == IncorrectCredentials || s == Retry || s == Locked
  }

  lemma {:induction false} LockoutBranchIsClosed(s: State, es: seq<Event>)
    requires OnLockoutBranch(s)
    ensures OnLockoutBranch(Run(s, es))
    ensures Run(s, es) != Success
    decreases |es|
  {
    if es != [] {
      LockoutBranchIsClosed(Next(s, es[0]), es[1..]);
    }
  }

  /** Reaching `locked` from `pristine` requires a FILL_FORM that is individually valid but not the admin pair. */
  lemma {:induction false} LockoutRequiresWrongCredentials(es: seq<Event>)
    requires Run(Pristine, es) == Locked
    ensures exists i :: 0 <= i < |es| && es[i].FillForm?
                        && IsValidLogin(es[i].form) && !AreValidCredentials(es[i].form)
    decreases |es|
  {
    var n := Next(Pristine, es[0]);
    if es[0].FillForm? {
      FillFormOutcome(es[0].form);
      if n == CorrectCredentials {
        RunFromCorrectCredentials(es[1..]);
      } else if n != Valid {
        DeadEndAbsorbs(n, es[1..]);
      }
    } else {
      assert n == Pristine;
      LockoutRequiresWrongCredentials(es[1..]);
      var i :| 0 <= i < |es[1..]| && es[1..][i].FillForm?
               && IsValidLogin(es[1..][i].form) && !AreValidCredentials(es[1..][i].form);
      assert es[i + 1] == es[1..][i];
    }
  }

  lemma {:induction false} RunFromCorrectCredentials(es: seq<Event>)
    ensures Run(CorrectCredentials, es) == CorrectCredentials || Run(CorrectCredentials, es) == Success
    decreases |es|
  {
    if es != [] {
      var n := Next(CorrectCredentials, es[0]);
      if n == Success {
        DeadEndAbsorbs(Success, es[1..]);
      } else {
        RunFromCorrectCredentials(es[1..]);
      }
    }
  }

  // ---------------------------------------------------------------------------
  // The state hierarchy
  // ---------------------------------------------------------------------------

  /** Distinct states have distinct key chains, and the children of `invalid` are exactly the two invalid states. */
  lemma StateHierarchy(s: State, t: State)
    ensures s != t ==> Path(s) != Path(t)
    ensures Path(s)[0] == "invalid" <==> s == InvalidUsername || s == InvalidPassword
    ensures |Path(s)| == 2 <==> Path(s)[0] == "invalid"
  {
  }

  /** Final states declare no outgoing transitions, for any event type. */
  lemma FinalStatesHaveNoTransitions(s: State, t: EventType)
    requires IsFinal(s)
    ensures Transitions(s, t) == []
  {
  }
}
