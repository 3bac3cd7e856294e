/**
 * The credentials sign-in decision of auth.ts: the `authorize` callback and
 * the `getUser` row selection it relies on.
 *
 * The three collaborators are parameters:
 *  - `isEmail`, the email-syntax check of the credential schema;
 *  - `query`, the store's answer to "all rows of `users` with this email";
 *  - `compare`, the one-way password/hash comparison.
 * `Authorize` returns, besides its outcome, the trace of the store lookups and
 * hash comparisons it made, so that short-circuiting can be stated.
 */
module Auth {
  import opened JsText

  /** A value found under a key of the raw credential object. */
  datatype Value = Str(s: string) | NonString

  /** The raw, untyped credential object handed to `authorize`. */
  type Credentials = map<string, Value>

  /** A row of the `users` table: its email, its stored password hash and every other column. */
  datatype User = User(email: string, password: string, otherColumns: map<string, string>)

  /** What the store answers to one query: the rows in store order, or a failure. */
  datatype StoreReply = Rows(rows: seq<User>) | StoreFailure

  /** An oracle call recorded in the trace. */
  datatype Call = Lookup(email: string) | Compare(password: string, hash: string)

  /** The result of `authorize`: the user record, `null`, or a thrown error. */
  datatype Outcome = SignedIn(user: User) | Null | Thrown(message: string)

  /** An outcome together with the oracle calls made, in order. */
  datatype Run = Run(outcome: Outcome, calls: seq<Call>)

  /** A credential object that passed the schema. */
  datatype Parsed = Parsed(email: string, password: string)

  datatype Option<T> = None | Some(value: T)

  /** What `getUser` gives back: a user, `undefined`, or the error it throws. */
  datatype Fetched = Found(user: User) | Missing | FetchError(message: string)

  /** Minimum password length, in UTF-16 code units. */
  const MinPasswordLength: nat := 6

  /** Message of the error `getUser` throws when the store fails. */
  const FetchUserError: string := "Failed to fetch user."

  /** The string under `key`, when there is one. */
  function StringField(raw: Credentials, key: string): Option<string> {
    if key in raw && raw[key].Str? then Some(raw[key].s) else None
  }

  /**
   * The credential schema: `email` a string passing the email check and
   * `password` a string of at least six code units. Values are kept verbatim
   * (no trimming, no case folding); other keys are dropped.
   */
  function ParseCredentials(raw: Credentials, isEmail: string -> bool): (r: Option<Parsed>)
    ensures r.Some? ==> "email" in raw && raw["email"] == Str(r.value.email) && isEmail(r.value.email)
    ensures r.Some? ==> "password" in raw && raw["password"] == Str(r.value.password)
                        && Utf16Length(r.value.password) >= MinPasswordLength
    ensures r.None? <==>
              || !("email" in raw && raw["email"].Str?)
              || !("password" in raw && raw["password"].Str?)
              || !isEmail(raw["email"].s)
              || Utf16Length(raw["password"].s) < MinPasswordLength
  {
    var email := StringField(raw, "email");
    var password := StringField(raw, "password");
    if email.Some? && isEmail(email.value)
       && password.Some? && Utf16Length(password.value) >= MinPasswordLength
    then Some(Parsed(email.value, password.value))
    else None
  }

  /** `getUser`: the first row for `email`, `undefined` when there is none, an error when the store fails. */
  function GetUser(query: string -> StoreReply, email: string): (r: Fetched)
    ensures r.FetchError? <==> query(email).StoreFailure?
    ensures r.FetchError? ==> r.message == FetchUserError
    ensures r.Missing? <==> query(email) == Rows([])
    ensures r.Found? ==> query(email).Rows? && |query(email).rows| > 0
                         && r.user == query(email).rows[0]
  {
    match query(email)
    case StoreFailure => FetchError(FetchUserError)
    case Rows(rows) => if |rows| == 0 then Missing else Found(rows[0])
  }

  /**
   * `authorize`: schema check, then one lookup of the submitted email, then
   * (only when a row came back) one comparison against that row's hash.
   */
  function Authorize(raw: Credentials, isEmail: string -> bool,
                     query: string -> StoreReply,
                     compare: (string, string) -> bool): (r: Run)
    ensures |r.calls| <= 2
    ensures forall i :: 0 <= i < |r.calls| ==> (r.calls[i].Lookup? <==> i == 0)
    ensures r.outcome.SignedIn? ==> |r.calls| == 2
    ensures r.calls == [] <==> ParseCredentials(raw, isEmail).None?
    ensures ParseCredentials(raw, isEmail).Some? ==>
              var p := ParseCredentials(raw, isEmail).value;
              query(p.email).Rows? && |query(p.email).rows| > 0 ==>
                r.calls == [Lookup(p.email), Compare(p.password, query(p.email).rows[0].password)]
  {
    match ParseCredentials(raw, isEmail)
    case None => Run(Null, [])
    case Some(Parsed(email, password)) =>
      var lookup := [Lookup(email)];
      match GetUser(query, email)
      case FetchError(message) => Run(Thrown(message), lookup)
      case Missing => Run(Null, lookup)
      case Found(user) =>
        var calls := lookup + [Compare(password, user.password)];
        if compare(password, user.password) then Run(SignedIn(user), calls)
        else Run(Null, calls)
  }

  /** A password shorter than six code units gives `null` with no lookup and no comparison. */
  lemma ShortPasswordRejected(raw: Credentials, isEmail: string -> bool,
                              query: string -> StoreReply, compare: (string, string) -> bool)
    requires "password" in raw && raw["password"].Str?
    requires Utf16Length(raw["password"].s) < MinPasswordLength
    ensures Authorize(raw, isEmail, query, compare) == Run(Null, [])
  {
  }

  /**
   * The length rule counts UTF-16 code units, not characters: a password of
   * three characters outside the Basic Multilingual Plane is long enough.
   */
  lemma ThreeAstralCharactersSuffice(raw: Credentials, isEmail: string -> bool)
    requires "email" in raw && raw["email"].Str? && isEmail(raw["email"].s)
    requires "password" in raw && raw["password"] == Str(['\U{1F511}', '\U{1F511}', '\U{1F511}'])
    ensures ParseCredentials(raw, isEmail).Some?
  {
  }

  /** An email the email check rejects gives `null` with no lookup and no comparison. */
  lemma InvalidEmailRejected(raw: Credentials, isEmail: string -> bool,
                             query: string -> StoreReply, compare: (string, string) -> bool)
    requires "email" in raw && raw["email"].Str? && !isEmail(raw["email"].s)
    ensures Authorize(raw, isEmail, query, compare) == Run(Null, [])
  {
  }

  /** Exactly the submitted strings reach the oracles, and the hash compared is the first row's. */
  lemma CallArguments(raw: Credentials, isEmail: string -> bool,
                      query: string -> StoreReply, compare: (string, string) -> bool)
    ensures var r := Authorize(raw, isEmail, query, compare);
            forall c :: c in r.calls && c.Lookup? ==> raw["email"] == Str(c.email)
    ensures var r := Authorize(raw, isEmail, query, compare);
            forall c :: c in r.calls && c.Compare? ==>
              && raw["password"] == Str(c.password)
              && query(raw["email"].s).Rows? && |query(raw["email"].s).rows| > 0
              && c.hash == query(raw["email"].s).rows[0].password
  {
  }

  /** No row: `null`, one lookup, and the comparison is never made. */
  lemma NotFoundSkipsCompare(raw: Credentials, isEmail: string -> bool,
                             query: string -> StoreReply, compare: (string, string) -> bool)
    requires ParseCredentials(raw, isEmail).Some?
    requires query(ParseCredentials(raw, isEmail).value.email) == Rows([])
    ensures Authorize(raw, isEmail, query, compare)
            == Run(Null, [Lookup(ParseCredentials(raw, isEmail).value.email)])
  {
  }

  /**
   * "No such user" and "wrong password" give the same value, `null`: a caller
   * seeing only the outcome cannot tell them apart.
   */
  lemma WrongPasswordLooksLikeNotFound(raw: Credentials, isEmail: string -> bool,
                                       noUser: string -> StoreReply,
                                       someUser: string -> StoreReply,
                                       compare: (string, string) -> bool)
    requires ParseCredentials(raw, isEmail).Some?
    requires var p := ParseCredentials(raw, isEmail).value;
             && noUser(p.email) == Rows([])
             && someUser(p.email).Rows? && |someUser(p.email).rows| > 0
             && !compare(p.password, someUser(p.email).rows[0].password)
    ensures Authorize(raw, isEmail, noUser, compare).outcome
            == Authorize(raw, isEmail, someUser, compare).outcome
            == Null
  {
  }

  /**
   * Sign-in succeeds with `u` exactly when the credentials pass the schema,
   * `u` is the first row the store returned for the submitted email and the
   * password matches its hash. The record is returned whole, hash included.
   */
  lemma SignedInIffFirstRowMatches(raw: Credentials, isEmail: string -> bool,
                                   query: string -> StoreReply,
                                   compare: (string, string) -> bool, u: User)
    ensures Authorize(raw, isEmail, query, compare).outcome == SignedIn(u)
            <==>
            && ParseCredentials(raw, isEmail).Some?
            && var p := ParseCredentials(raw, isEmail).value;
            && query(p.email).Rows? && |query(p.email).rows| > 0
            && query(p.email).rows[0] == u
            && compare(p.password, u.password)
    ensures Authorize(raw, isEmail, query, compare).outcome == SignedIn(u)
            ==> u.password == query(raw["email"].s).rows[0].password
  {
  }

  /** A store failure is not collapsed into `null`: it is the one thrown outcome, with a fixed message. */
  lemma StoreFailureSurfaces(raw: Credentials, isEmail: string -> bool,
                             query: string -> StoreReply, compare: (string, string) -> bool)
    ensures var r := Authorize(raw, isEmail, query, compare);
            r.outcome.Thrown? <==>
              ParseCredentials(raw, isEmail).Some?
              && query(ParseCredentials(raw, isEmail).value.email).StoreFailure?
    ensures var r := Authorize(raw, isEmail, query, compare);
            r.outcome.Thrown? ==> r.outcome.message == FetchUserError && |r.calls| == 1
  {
  }

  /** With several rows for the email, only the first matters: the rest never change the run. */
  lemma FirstRowWins(raw: Credentials, isEmail: string -> bool,
                     query1: string -> StoreReply, query2: string -> StoreReply,
                     compare: (string, string) -> bool, first: User, rest1: seq<User>, rest2: seq<User>)
    requires ParseCredentials(raw, isEmail).Some?
    requires query1(ParseCredentials(raw, isEmail).value.email) == Rows([first] + rest1)
    requires query2(ParseCredentials(raw, isEmail).value.email) == Rows([first] + rest2)
    ensures Authorize(raw, isEmail, query1, compare) == Authorize(raw, isEmail, query2, compare)
  {
  }

  /**
   * The run depends on the store only through its answer for the submitted
   * email: no other email is ever looked up.
   */
  lemma OnlySubmittedEmailQueried(raw: Credentials, isEmail: string -> bool,
                                  query1: string -> StoreReply, query2: string -> StoreReply,
                                  compare: (string, string) -> bool)
    requires "email" in raw && raw["email"].Str?
    requires query1(raw["email"].s) == query2(raw["email"].s)
    ensures Authorize(raw, isEmail, query1, compare) == Authorize(raw, isEmail, query2, compare)
  {
  }
}
