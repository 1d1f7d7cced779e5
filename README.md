# Login-flow state machine

This project models the login flow that the Cypress test suite of the
repository describes with an xstate machine, `login-fail-test`
(`cypress/integration/login.spec.ts`). The machine stands for the login page
and has three parts:

- **Field validators.** `isValidUsername` and `isValidPassword` check that a
  field is not empty once whitespace is ignored (`isEmpty(…, {ignore_whitespace:
  true})`, which trims and tests for length 0) and that it is long enough
  (`isLength(…, {min})`, measured on the string as typed): at least 5
  characters for the username and 8 for the password. `isValidLogin` is both
  checks together. `areValidCredentials` is an exact match against `admin` /
  `Pa$$w0rd!`.
- **States and events.** The nine atomic states are `pristine` (initial),
  `invalid.username` and `invalid.password` (children of the compound state
  `invalid`), `valid`, `correctCredentials`, `incorrectCredentials`, `retry`,
  and the final states `success` and `locked`. The events are
  `FILL_FORM{username, password}`, `SUBMIT` and `RETRY`.
- **Transitions.** Each state lists, per event type, an ordered list of
  guarded targets. The first guard that holds wins. An event the state does
  not list, or one whose guards all fail, leaves the state unchanged.
  `FILL_FORM` from `pristine` has four guards: username invalid, then
  password invalid, then the admin credentials, then `isValidLogin`.

Files:

- `wrappers.dfy`: module `Wrappers`, the `Option` type ("no transition").
- `validation.dfy`: module `LoginValidation`. It holds the whitespace set of
  JavaScript's `trim`, trimming as counts of leading and trailing whitespace,
  the validators and the credential check.
- `machine.dfy`: module `LoginMachine`. It holds the states, events, guards
  and the `on` table (`Transitions`), first-match-wins evaluation (`Select`),
  one step (`Step`, `Next`), a whole run of events (`Run`), and the
  breadth-first depth of each state (`Depth`).
- `properties.dfy`: module `LoginProperties`, the lemmas about the machine.

Two facts about the code are easy to miss:

- `'user'` has 4 characters, fewer than 5, and the username guard is checked
  first (login.spec.ts:19, 45-46). So both fixed cases with username `'user'`
  (with a 7-character and a 12-character password) select `invalid.username`
  whatever the password (`UserCaseSelectsInvalidUsername`).
- `retry` goes to `locked` on `SUBMIT` (login.spec.ts:124-128), so the
  transition graph has no cycle. Every transition that fires goes exactly one
  breadth-first layer deeper (`StepRaisesDepth`), and a run that has left a
  state never comes back to it (`NoReturn`).

## Model

| member | source | states |
|---|---|---|
| `LoginValidation.LeadingWhitespaceIsMaximal` | cypress/integration/login.spec.ts:18 | the leading whitespace run that trimming drops is all whitespace, and the character after it, if any, is not whitespace |
| `LoginValidation.TrailingWhitespaceIsMaximal` | cypress/integration/login.spec.ts:18 | the trailing whitespace run that trimming drops is all whitespace, and the character before it, if any, is not; a string that starts with a non-whitespace character keeps at least one character |
| `LoginValidation.TrimEmptyIffAllWhitespace` | cypress/integration/login.spec.ts:18 | `isEmpty(s, {ignore_whitespace: true})` (the trimmed string is empty) holds exactly when every character of `s` is whitespace |
| `LoginValidation.UsernameValidity` | cypress/integration/login.spec.ts:16-21 | a username is valid exactly when it has a non-whitespace character and at least 5 characters |
| `LoginValidation.PasswordValidity` | cypress/integration/login.spec.ts:22-27 | a password is valid exactly when it has a non-whitespace character and at least 8 characters |
| `LoginValidation.CredentialsAreValidLogin` | cypress/integration/login.spec.ts:28-33 | the admin credentials pass both field validators, so `areValidCredentials` implies `isValidLogin` |
| `LoginValidation.PaddedUsernameIsValid` | cypress/integration/login.spec.ts:18-19 | four spaces and one non-whitespace character make a valid username: its length 5 is taken before trimming, and trimming leaves one character |
| `LoginValidation.ShortUsernameIsInvalid` | cypress/integration/login.spec.ts:19 | a username shorter than 5 characters is invalid whatever it contains |
| `LoginValidation.BlankFieldIsEmpty` | cypress/integration/login.spec.ts:16-27 | a field made only of whitespace (or empty) fails both validators, whatever its length |
| `LoginMachine.SelectIsFirstMatch` | cypress/integration/login.spec.ts:43-60 | guard evaluation gives no target exactly when no guard holds, and otherwise the target of the first candidate whose guard holds, all earlier guards failing |
| `LoginMachine.FirstMatchIsUnique` | cypress/integration/login.spec.ts:43-60 | the first matching candidate is unique, so guard selection is deterministic |
| `LoginProperties.FillFormOutcome` | cypress/integration/login.spec.ts:43-60 | `FILL_FORM` from `pristine` always selects a target; `invalid.username` iff the username is invalid; `invalid.password` iff the username is valid and the password invalid; `correctCredentials` iff the input is the admin pair; `valid` iff both fields are valid and the input is not the admin pair |
| `LoginProperties.PristineGuardListIsExhaustive` | cypress/integration/login.spec.ts:43-60 | the pristine `FILL_FORM` guard list always has a first matching guard; the credential guard is the first match exactly for the admin pair, and the last guard (`isValidLogin`) exactly for individually valid input that is not the admin pair |
| `LoginProperties.UsernameCheckedFirst` | cypress/integration/login.spec.ts:43-47 | an invalid username selects `invalid.username` whatever the password |
| `LoginProperties.InvalidPasswordSelected` | cypress/integration/login.spec.ts:48-51 | a valid username with an empty, whitespace-only or shorter-than-8 password selects `invalid.password` |
| `LoginProperties.UserCaseSelectsInvalidUsername` | cypress/integration/login.spec.ts:150-151 | the fixed cases with username `'user'` select `invalid.username` for every password |
| `LoginProperties.BlankUsernameSelectsInvalidUsername` | cypress/integration/login.spec.ts:16-21 | an empty or whitespace-only username selects `invalid.username` for every password |
| `LoginProperties.PaddedUsernamePassesFirstGuard` | cypress/integration/login.spec.ts:44-47 | four spaces and one non-whitespace character do not select `invalid.username` |
| `LoginProperties.AdminLogsIn` | cypress/integration/login.spec.ts:97-123 | the only pair `areValidCredentials` accepts is `admin` / `Pa$$w0rd!`; it selects `correctCredentials`, and `SUBMIT` then reaches `success` |
| `LoginProperties.CredentialsSelectCorrectCredentials` | cypress/integration/login.spec.ts:52-55 | the admin pair selects `correctCredentials` from `pristine` |
| `LoginProperties.WrongCredentialsLockOut` | cypress/integration/login.spec.ts:86-139 | individually valid but wrong credentials select `valid`; then `SUBMIT` gives `incorrectCredentials`, `RETRY` gives `retry`, and `SUBMIT` gives the final `locked` |
| `LoginProperties.IgnoredExactlyWhenUnlisted` | cypress/integration/login.spec.ts:41-139 | for every state and event: the state is unchanged exactly when the event selects no transition, and that happens exactly when the state lists nothing for the event's type (no guard list of the machine ever fails entirely) |
| `LoginProperties.DeadEnds` | cypress/integration/login.spec.ts:68-85 | the states without any transition are exactly `success`, `locked`, `invalid.username` and `invalid.password`; the last two are dead ends although not final |
| `LoginProperties.DeadEndAbsorbs` | cypress/integration/login.spec.ts:112-139 | no sequence of events moves the machine out of a dead end, in particular out of a final state |
| `LoginProperties.FinalStatesHaveNoTransitions` | cypress/integration/login.spec.ts:112-139 | the final states `success` and `locked` declare no transitions for any event type |
| `LoginProperties.StepRaisesDepth` | cypress/integration/login.spec.ts:37-141 | every transition that fires leads to a state exactly one breadth-first layer deeper |
| `LoginProperties.RunDepth` | cypress/integration/login.spec.ts:37-141 | along any run the depth never decreases and grows by at most one per event; a run that ends in a different state ends strictly deeper |
| `LoginProperties.NoReturn` | cypress/integration/login.spec.ts:124-128 | a run that has left a state never comes back to it, whatever events follow, so the graph has no cycle |
| `LoginProperties.ShortestRunLength` | cypress/integration/login.spec.ts:37-141 | no run from the initial state reaches a state in fewer events than its depth |
| `LoginProperties.ShortestRun` | cypress/integration/login.spec.ts:37-141 | every state is reachable from the initial state by a run whose length is its depth, so the depth is the exact shortest distance |
| `LoginProperties.SuccessRequiresAdmin` | cypress/integration/login.spec.ts:41-123 | a run that reaches `success` from any state other than `success` and `correctCredentials` contains a `FILL_FORM` with the admin credentials |
| `LoginProperties.LockoutBranchIsClosed` | cypress/integration/login.spec.ts:86-139 | from `valid`, `incorrectCredentials`, `retry` or `locked` every run stays among those four states and never reaches `success` |
| `LoginProperties.LockoutRequiresWrongCredentials` | cypress/integration/login.spec.ts:43-139 | a run from `pristine` that reaches `locked` contains a `FILL_FORM` whose fields are individually valid but are not the admin pair |
| `LoginProperties.RunFromCorrectCredentials` | cypress/integration/login.spec.ts:97-123 | from `correctCredentials` every run ends in `correctCredentials` or `success` |
| `LoginProperties.StateHierarchy` | cypress/integration/login.spec.ts:40-140 | distinct states have distinct key chains; the states under the compound `invalid` state are exactly `invalid.username` and `invalid.password`, the only states two levels deep |

## Left out

- The `meta.test` assertion hooks and the `exec` bodies of `FILL_FORM`,
  `SUBMIT` and `RETRY` (login.spec.ts:62-66, 70-138, 145-185). They are
  Cypress DOM queries, typing, clicks and waits on the network, so they are UI
  and I/O.
- The `faker`-generated case values (login.spec.ts:150-159). They are random.
  Lemmas cover the fixed cases (`'user'`, the admin pair) and, for every
  password, what any payload selects (`FillFormOutcome`).
- Test-path generation by `@xstate/test` (`createModel`,
  `getSimplePathPlans`, `path.test`, login.spec.ts:142, 190-203). That
  library is not part of this model. The model proves instead what the
  generated paths rely on: every state is reachable, shortest runs have
  exactly the breadth-first depth (`ShortestRun`, `ShortestRunLength`), and no
  run revisits a state (`NoReturn`).
- HTTP route stubbing, `cy.visit` and the "should go to register" navigation
  test (login.spec.ts:196-201, 211-224). These are transport and navigation.
- `pages/register.tsx`: a page component made of styling, an auth hook and
  router navigation, with no logic to model.
- The machine context. Its type is `never` and no guard reads it, so guards
  are functions of the event alone.
- The compound state `invalid` as a state value of its own. States are a
  flat list and the hierarchy is kept as each state's key chain (`Path`). No
  transition targets `invalid` itself.
- `LoginValidation.IsLength` counts every `char` (Unicode scalar value). The
  `validator` library's `isLength` discounts surrogate pairs, which gives the
  same count, and in some versions also variation selectors (U+FE0E, U+FE0F),
  which this model counts as characters.
- `LoginMachine.Holds`: the field guards are false on events other than
  `FILL_FORM`. In the source they are attached only to `FILL_FORM`, so this
  never matters.
