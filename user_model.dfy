/** The User schema: the name and e-mail validators, the required fields, the boolean
    defaults, and the unique index on `email`. */
module UserModel {
  import opened JsValues

  // ---------------------------------------------------------------- name: /^[a-zA-Z ]{2,}$/

  predicate IsNameChar(c: char) { IsAsciiLetter(c) || c == ' ' }

  /** The name validator: at least two characters, each an ASCII letter or a space. */
  predicate IsValidName(name: string) {
    |name| >= 2 && forall i :: 0 <= i < |name| ==> IsNameChar(name[i])
  }

  lemma NameExamples()
    ensures IsValidName("  ")
    ensures IsValidName("Jo")
    ensures !IsValidName("J")
    ensures !IsValidName("Ann-Marie")
  {
    assert !IsNameChar("Ann-Marie"[3]);
  }

  // ---------------------------------------------------------------- e-mail

  /** `[a-zA-Z0-9._%+-]`, the local part's class. */
  predicate IsLocalChar(c: char) {
    IsAsciiLetter(c) || IsDigit(c) || c == '.' || c == '_' || c == '%' || c == '+' || c == '-'
  }

  /** `[a-zA-Z0-9.-]`, the domain's class. */
  predicate IsDomainChar(c: char) { IsAsciiLetter(c) || IsDigit(c) || c == '.' || c == '-' }

  predicate AllOf(s: string, p: char -> bool) { forall i :: 0 <= i < |s| ==> p(s[i]) }

  /** The e-mail splits as `local @ domain . tld` at the '@' at index `at` and the '.' at
      index `dot`, with each part as `/^[a-zA-Z0-9._%+-]+@[a-zA-Z0-9.-]+\.[a-zA-Z]{2,}$/`
      requires. */
  predicate EmailSplit(s: string, at: int, dot: int) {
    && 0 < at && at + 1 < dot && dot < |s|
    && s[at] == '@' && s[dot] == '.'
    && AllOf(s[..at], IsLocalChar)
    && AllOf(s[at + 1..dot], IsDomainChar)
    && |s| - (dot + 1) >= 2 && AllOf(s[dot + 1..], IsAsciiLetter)
  }

  /** What the e-mail regular expression accepts: some way of splitting the string. */
  ghost predicate EmailPattern(s: string) {
    exists at, dot :: EmailSplit(s, at, dot)
  }

  /** The index of the first `c` in s, or |s| when there is none. */
  function IndexOf(s: string, c: char): (r: nat)
    ensures r <= |s|
    ensures r < |s| ==> s[r] == c
    ensures forall i :: 0 <= i < r ==> s[i] != c
  {
    if s == [] then 0 else if s[0] == c then 0 else 1 + IndexOf(s[1..], c)
  }

  /** The index of the last `c` in s, or -1 when there is none. */
  function LastIndexOf(s: string, c: char): (r: int)
    ensures -1 <= r < |s|
    ensures r >= 0 ==> s[r] == c
    ensures forall i :: r < i < |s| ==> s[i] != c
  {
    if s == [] then -1 else if s[|s| - 1] == c then |s| - 1 else LastIndexOf(s[..|s| - 1], c)
  }

  /** The e-mail validator, deciding the pattern by splitting at the first '@' and the last
      '.': neither class after the '@' admits another '@', and the final label has no '.'. */
  function IsValidEmail(s: string): (ok: bool)
    ensures ok <==> EmailPattern(s)
  {
    var at := IndexOf(s, '@');
    var dot := LastIndexOf(s, '.');
    if EmailSplit(s, at, dot) then true
    else
      assert !EmailPattern(s) by {
        if EmailPattern(s) {
          var a, d :| EmailSplit(s, a, d);
          SplitIsFirstAtLastDot(s, a, d);
        }
      }
      false
  }

  /** Any split the pattern allows is at the first '@' and at the last '.'. */
  lemma SplitIsFirstAtLastDot(s: string, at: int, dot: int)
    requires EmailSplit(s, at, dot)
    ensures at == IndexOf(s, '@') && dot == LastIndexOf(s, '.')
  {
  }

  /** A valid e-mail holds exactly one '@'. */
  lemma ValidEmailHasOneAt(s: string)
    requires IsValidEmail(s)
    ensures exists i :: 0 <= i < |s| && s[i] == '@'
    ensures forall i, j :: 0 <= i < j < |s| && s[i] == '@' && s[j] == '@' ==> false
  {
    var at, dot :| EmailSplit(s, at, dot);
    forall i, j | 0 <= i < j < |s| && s[i] == '@' && s[j] == '@' ensures false {
      NoAtOutsideSplit(s, at, dot, i);
      NoAtOutsideSplit(s, at, dot, j);
    }
  }

  lemma NoAtOutsideSplit(s: string, at: int, dot: int, i: int)
    requires EmailSplit(s, at, dot)
    requires 0 <= i < |s| && s[i] == '@'
    ensures i == at
  {
  }

  lemma ValidEmailExample(s: string)
    requires s == "a@b.co"
    ensures IsValidEmail(s)
  {
    assert EmailSplit(s, 1, 3);
  }

  lemma ShortTldExample(s: string)
    requires s == "a@b.c"
    ensures !IsValidEmail(s)
  {
  }

  lemma DoubleAtExample(s: string)
    requires s == "a@@b.co"
    ensures !IsValidEmail(s)
  {
    assert IndexOf(s, '@') == 1;
    assert s[2..4][0] == '@';
  }

  lemma EmailExamples()
    ensures IsValidEmail("a@b.co")
    ensures !IsValidEmail("a@b.c")
    ensures !IsValidEmail("a@@b.co")
  {
    ValidEmailExample("a@b.co");
    ShortTldExample("a@b.c");
    DoubleAtExample("a@@b.co");
  }

  // ---------------------------------------------------------------- schema

  /** The fields a document is created from; `None` is an absent field. */
  datatype UserInput = UserInput(
    name: Option<string>,
    email: Option<string>,
    phone: Option<int>,
    password: Option<string>,
    addresses: seq<string>,
    isVerified: Option<bool>,
    isAdmin: Option<bool>,
    forgotPasswordToken: Option<string>,
    forgotPasswordTokenExpiry: Option<int>,
    verifyToken: Option<string>,
    verifyTokenExpiry: Option<int>,
    otp: Option<string>,
    otpExpires: Option<int>)

  datatype User = User(
    name: string,
    email: string,
    phone: int,
    password: string,
    addresses: seq<string>,
    isVerified: bool,
    isAdmin: bool,
    forgotPasswordToken: Option<string>,
    forgotPasswordTokenExpiry: Option<int>,
    verifyToken: Option<string>,
    verifyTokenExpiry: Option<int>,
    otp: Option<string>,
    otpExpires: Option<int>)

  datatype Path = NamePath | EmailPath | PhonePath | PasswordPath

  datatype ValidationError = Required(path: Path) | InvalidFormat(path: Path)

  /** A required string is present and non-empty. */
  predicate PresentText(v: Option<string>) { v.Some? && v.value != "" }

  /** The first failing validator of each path: `required` runs first, the format validator
      only on a present value. */
  function Errors(u: UserInput): set<ValidationError> {
    (if !PresentText(u.name) then {Required(NamePath)}
     else if !IsValidName(u.name.value) then {InvalidFormat(NamePath)} else {})
    + (if !PresentText(u.email) then {Required(EmailPath)}
       else if !IsValidEmail(u.email.value) then {InvalidFormat(EmailPath)} else {})
    + (if u.phone.None? then {Required(PhonePath)} else {})
    + (if !PresentText(u.password) then {Required(PasswordPath)} else {})
  }

  datatype Validated = Accepted(user: User) | Refused(errors: set<ValidationError>)

  function Default(v: Option<bool>): bool {
    if v.Some? then v.value else false
  }

  /** Building and validating a document from input. */
  function NewUser(u: UserInput): (r: Validated)
    ensures r.Accepted? <==> PresentText(u.name) && PresentText(u.email) && u.phone.Some?
                             && PresentText(u.password)
                             && IsValidName(u.name.value) && IsValidEmail(u.email.value)
    ensures r.Refused? ==> r.errors != {}
    ensures r.Refused? ==> forall e :: e in r.errors ==> e.path in FailingPaths(u)
    // every failing path is reported
    ensures r.Refused? ==> (set e | e in r.errors :: e.path) == FailingPaths(u)
    ensures r.Accepted? ==> r.user.isVerified == (u.isVerified == Some(true))
    ensures r.Accepted? ==> r.user.isAdmin == (u.isAdmin == Some(true))
    ensures r.Accepted? ==> && r.user.name == u.name.value && r.user.email == u.email.value
                            && r.user.phone == u.phone.value && r.user.password == u.password.value
                            && r.user.addresses == u.addresses
    ensures r.Accepted? ==> && r.user.forgotPasswordToken == u.forgotPasswordToken
                            && r.user.forgotPasswordTokenExpiry == u.forgotPasswordTokenExpiry
                            && r.user.verifyToken == u.verifyToken
                            && r.user.verifyTokenExpiry == u.verifyTokenExpiry
                            && r.user.otp == u.otp && r.user.otpExpires == u.otpExpires
  {
    var errs := Errors(u);
    ErrorPathsAreFailingPaths(u);
    if errs != {} then Refused(errs)
    else
      Accepted(User(u.name.value, u.email.value, u.phone.value, u.password.value, u.addresses,
                    Default(u.isVerified), Default(u.isAdmin),
                    u.forgotPasswordToken, u.forgotPasswordTokenExpiry,
                    u.verifyToken, u.verifyTokenExpiry, u.otp, u.otpExpires))
  }

  /** The paths whose rule the input breaks. */
  function FailingPaths(u: UserInput): set<Path> {
    (if !PresentText(u.name) || !IsValidName(u.name.value) then {NamePath} else {})
    + (if !PresentText(u.email) || !IsValidEmail(u.email.value) then {EmailPath} else {})
    + (if u.phone.None? then {PhonePath} else {})
    + (if !PresentText(u.password) then {PasswordPath} else {})
  }

  /** Each failing path has exactly one error, so the errors report every failing path. */
  lemma ErrorPathsAreFailingPaths(u: UserInput)
    ensures (set e | e in Errors(u) :: e.path) == FailingPaths(u)
  {
    var paths := set e | e in Errors(u) :: e.path;
    forall p | p in FailingPaths(u) ensures p in paths {
      if !PresentText(u.name) && p == NamePath { assert Required(NamePath) in Errors(u); }
      else if p == NamePath { assert InvalidFormat(NamePath) in Errors(u); }
      else if !PresentText(u.email) && p == EmailPath { assert Required(EmailPath) in Errors(u); }
      else if p == EmailPath { assert InvalidFormat(EmailPath) in Errors(u); }
      else if p == PhonePath { assert Required(PhonePath) in Errors(u); }
      else { assert Required(PasswordPath) in Errors(u); }
    }
  }

  /** A document missing any of name, email, phone or password is refused, and the refusal
      names that field as required. */
  lemma MissingRequiredFieldRefused(u: UserInput, p: Path)
    requires (p == NamePath && u.name.None?) || (p == EmailPath && u.email.None?)
             || (p == PhonePath && u.phone.None?) || (p == PasswordPath && u.password.None?)
    ensures NewUser(u).Refused? && Required(p) in NewUser(u).errors
  {
  }

  // ---------------------------------------------------------------- unique index on email

  predicate UniqueEmails(users: seq<User>) {
    forall i, j :: 0 <= i < j < |users| ==> users[i].email != users[j].email
  }

  predicate EmailTaken(users: seq<User>, email: string) {
    exists i :: 0 <= i < |users| && users[i].email == email
  }

  /** Inserting a document: the unique index refuses a second document with the same e-mail. */
  function Insert(users: seq<User>, u: User): (r: Option<seq<User>>)
    ensures r.None? <==> EmailTaken(users, u.email)
    ensures r.Some? ==> r.value == users + [u]
    ensures UniqueEmails(users) && r.Some? ==> UniqueEmails(r.value)
  {
    if EmailTaken(users, u.email) then None
    else
      var next := users + [u];
      assert forall i :: 0 <= i < |users| ==> next[i] == users[i];
      Some(next)
  }

  datatype Registration = Registered(users: seq<User>) | Invalid(errors: set<ValidationError>) | DuplicateEmail

  /** Creating a user: schema validation first, then the insertion against the index. */
  function Register(users: seq<User>, u: UserInput): (r: Registration)
    ensures r.Registered? ==> NewUser(u).Accepted? && r.users == users + [NewUser(u).user]
    ensures r == DuplicateEmail <==> NewUser(u).Accepted? && EmailTaken(users, u.email.value)
    ensures r.Registered? <==> NewUser(u).Accepted? && !EmailTaken(users, u.email.value)
    ensures r.Invalid? <==> NewUser(u).Refused?
    ensures r.Invalid? ==> r.errors == NewUser(u).errors
    ensures UniqueEmails(users) && r.Registered? ==> UniqueEmails(r.users)
  {
    match NewUser(u)
    case Refused(errs) => Invalid(errs)
    case Accepted(user) =>
      match Insert(users, user)
      case None => DuplicateEmail
      case Some(next) => Registered(next)
  }

  /** Registering a series of inputs in turn, skipping the ones refused. */
  function RegisterAll(users: seq<User>, inputs: seq<UserInput>): seq<User>
    decreases |inputs|
  {
    if inputs == [] then users
    else
      var next := match Register(users, inputs[0])
                  case Registered(us) => us
                  case _ => users;
      RegisterAll(next, inputs[1..])
  }

  /** However many registrations are attempted, starting from a collection without duplicate
      e-mails, the collection never holds two users with the same e-mail. */
  lemma {:induction false} RegisterAllKeepsEmailsUnique(users: seq<User>, inputs: seq<UserInput>)
    requires UniqueEmails(users)
    ensures UniqueEmails(RegisterAll(users, inputs))
    decreases |inputs|
  {
    if inputs != [] {
      var next := match Register(users, inputs[0])
                  case Registered(us) => us
                  case _ => users;
      RegisterAllKeepsEmailsUnique(next, inputs[1..]);
    }
  }
}
