/** The account forms' blank-field checks: every blank field adds its
    message, in the form's field order, and the form is valid exactly when
    no message was added. */
module AccountValidation {
  import opened Common

  /** The registration form; only the four checked fields are modelled. */
  datatype RegisterRequest = RegisterRequest(
    name: Option<string>,
    email: Option<string>,
    phone: Option<string>,
    password: Option<string>)

  datatype SignInRequest = SignInRequest(
    username: Option<string>,
    password: Option<string>,
    isPersistent: bool)

  const NameEmpty: string := "Name must not be empty."
  const EmailAddressEmpty: string := "Email Address must not be empty."
  const PhoneEmpty: string := "Phone Number must not be empty."
  const PasswordEmpty: string := "Password must not be empty."
  const EmailEmpty: string := "Email must not be empty."

  const UserMessages: seq<string> := [NameEmpty, EmailAddressEmpty, PhoneEmpty, PasswordEmpty]
  const CredentialMessages: seq<string> := [EmailEmpty, PasswordEmpty]

  /** Which registration field is blank, in the form's order. */
  function UserBlanks(req: RegisterRequest): (v: seq<bool>)
    ensures |v| == |UserMessages|
  {
    [IsNullOrWhiteSpace(req.name), IsNullOrWhiteSpace(req.email),
     IsNullOrWhiteSpace(req.phone), IsNullOrWhiteSpace(req.password)]
  }

  function UserErrors(req: RegisterRequest): seq<string>
  {
    Select(UserMessages, UserBlanks(req))
  }

  /** Which sign-in field is blank: the user name, then the password. */
  function CredentialBlanks(req: SignInRequest): (v: seq<bool>)
    ensures |v| == |CredentialMessages|
  {
    [IsNullOrWhiteSpace(req.username), IsNullOrWhiteSpace(req.password)]
  }

  function CredentialErrors(req: SignInRequest): seq<string>
  {
    Select(CredentialMessages, CredentialBlanks(req))
  }

  /** UserIsValid: one message per blank field; valid when there is none. */
  method UserIsValid(registerRequest: RegisterRequest) returns (valid: bool, errors: seq<string>)
    ensures errors == UserErrors(registerRequest)
    ensures valid <==> errors == []
    ensures valid <==> && !IsNullOrWhiteSpace(registerRequest.name) && !IsNullOrWhiteSpace(registerRequest.email)
                       && !IsNullOrWhiteSpace(registerRequest.phone) && !IsNullOrWhiteSpace(registerRequest.password)
  {
    errors := [];
    if IsNullOrWhiteSpace(registerRequest.name) {
      errors := errors + [NameEmpty];
    }
    if IsNullOrWhiteSpace(registerRequest.email) {
      errors := errors + [EmailAddressEmpty];
    }
    if IsNullOrWhiteSpace(registerRequest.phone) {
      errors := errors + [PhoneEmpty];
    }
    if IsNullOrWhiteSpace(registerRequest.password) {
      errors := errors + [PasswordEmpty];
    }
    UserErrorsInFieldOrder(registerRequest);
    valid := errors == [];
  }

  /** The registration messages, field by field. */
  lemma UserErrorsInFieldOrder(req: RegisterRequest)
    ensures UserErrors(req)
              == (if IsNullOrWhiteSpace(req.name) then [NameEmpty] else [])
                 + (if IsNullOrWhiteSpace(req.email) then [EmailAddressEmpty] else [])
                 + (if IsNullOrWhiteSpace(req.phone) then [PhoneEmpty] else [])
                 + (if IsNullOrWhiteSpace(req.password) then [PasswordEmpty] else [])
  {
    SelectOfFour(NameEmpty, EmailAddressEmpty, PhoneEmpty, PasswordEmpty,
                 IsNullOrWhiteSpace(req.name), IsNullOrWhiteSpace(req.email),
                 IsNullOrWhiteSpace(req.phone), IsNullOrWhiteSpace(req.password));
  }

  /** Selecting from four items, one item at a time. */
  lemma SelectOfFour<T>(a: T, b: T, c: T, d: T, p: bool, q: bool, r: bool, t: bool)
    ensures Select([a, b, c, d], [p, q, r, t])
              == (if p then [a] else []) + (if q then [b] else []) + (if r then [c] else []) + (if t then [d] else [])
  {
    var tail := Select([c, d], [r, t]);
    assert [c, d][1..] == [d] && [r, t][1..] == [t];
    assert Select([d], [t]) == (if t then [d] else []) + Select([], []);
    assert tail == (if r then [c] else []) + (if t then [d] else []);
    assert [b, c, d][1..] == [c, d] && [q, r, t][1..] == [r, t];
    assert [a, b, c, d][1..] == [b, c, d] && [p, q, r, t][1..] == [q, r, t];
  }

  /** CredentialIsValid: the user name message before the password message. */
  method CredentialIsValid(signInRequest: SignInRequest) returns (valid: bool, errors: seq<string>)
    ensures errors == CredentialErrors(signInRequest)
    ensures valid <==> errors == []
    ensures valid <==> !IsNullOrWhiteSpace(signInRequest.username) && !IsNullOrWhiteSpace(signInRequest.password)
  {
    errors := [];
    if IsNullOrWhiteSpace(signInRequest.username) {
      errors := errors + [EmailEmpty];
    }
    if IsNullOrWhiteSpace(signInRequest.password) {
      errors := errors + [PasswordEmpty];
    }
    CredentialErrorsInFieldOrder(signInRequest);
    valid := errors == [];
  }

  /** The sign-in messages, field by field. */
  lemma CredentialErrorsInFieldOrder(req: SignInRequest)
    ensures CredentialErrors(req)
              == (if IsNullOrWhiteSpace(req.username) then [EmailEmpty] else [])
                 + (if IsNullOrWhiteSpace(req.password) then [PasswordEmpty] else [])
  {
    var blanks := CredentialBlanks(req);
    SelectStep(CredentialMessages, blanks, 0);
    SelectStep(CredentialMessages, blanks, 1);
    assert CredentialMessages[..2] == CredentialMessages && blanks[..2] == blanks;
  }

  /** A registration message is reported exactly when its field is blank. */
  lemma UserMessageIffBlank(req: RegisterRequest, i: nat)
    requires i < |UserMessages|
    ensures UserMessages[i] in UserErrors(req) <==> UserBlanks(req)[i]
  {
    var u := UserMessages;
    assert u == [NameEmpty, EmailAddressEmpty, PhoneEmpty, PasswordEmpty];
    SelectMemberAt(UserMessages, UserBlanks(req), i);
  }

  /** A blank user name is reported first, a blank password second. */
  lemma CredentialErrorsOrder(req: SignInRequest)
    ensures IsNullOrWhiteSpace(req.username) ==> CredentialErrors(req)[0] == EmailEmpty
    ensures IsNullOrWhiteSpace(req.username) && IsNullOrWhiteSpace(req.password) ==>
              CredentialErrors(req) == [EmailEmpty, PasswordEmpty]
    ensures !IsNullOrWhiteSpace(req.username) && IsNullOrWhiteSpace(req.password) ==>
              CredentialErrors(req) == [PasswordEmpty]
  {
    var v := CredentialBlanks(req);
    assert CredentialMessages[1..] == [PasswordEmpty];
    assert v[1..] == [v[1]];
    assert Select([PasswordEmpty], [v[1]]) == (if v[1] then [PasswordEmpty] else []) + Select([PasswordEmpty][1..], [v[1]][1..]);
  }
}
