/** The user schema: how a user document is normalised and validated
    before it is stored, and the unique indexes on `fullname` and `email`. */
module UserModel {
  import opened Api
  import opened JsText

  /** `[a-zA-Z0-9._%+-]`: the local part of an address. */
  predicate IsLocalChar(c: char) {
    IsAsciiLetter(c) || IsDigit(c) || c == '.' || c == '_' || c == '%' || c == '+' || c == '-'
  }

  /** `[a-zA-Z0-9.-]`: the domain part of an address. */
  predicate IsDomainChar(c: char) {
    IsAsciiLetter(c) || IsDigit(c) || c == '.' || c == '-'
  }

  /** The anchored pattern `^[a-zA-Z0-9._%+-]+@[a-zA-Z0-9.-]+\.[a-zA-Z]{2,}$`
      matches `s` with its `@` at `at` and its `\.` at `dot`. */
  predicate EmailSplitsAt(s: string, at: int, dot: int) {
    && 1 <= at && at + 2 <= dot && dot + 3 <= |s|
    && s[at] == '@' && s[dot] == '.'
    && (forall i :: 0 <= i < at ==> IsLocalChar(s[i]))
    && (forall i :: at < i < dot ==> IsDomainChar(s[i]))
    && (forall i :: dot < i < |s| ==> IsAsciiLetter(s[i]))
  }

  /** The schema's `match` validator on the email path. */
  predicate SchemaEmailMatches(s: string) {
    exists at, dot :: 0 <= at < |s| && 0 <= dot < |s| && EmailSplitsAt(s, at, dot)
  }

  /** The pattern can match in one way only: its `@` is the only `@` in the
      address and its `\.` is the last dot. */
  lemma EmailSplitUnique(s: string, at1: int, dot1: int, at2: int, dot2: int)
    requires EmailSplitsAt(s, at1, dot1) && EmailSplitsAt(s, at2, dot2)
    ensures at1 == at2 && dot1 == dot2
  {
    assert forall i :: at1 < i < |s| ==> s[i] != '@';
    assert forall i :: at2 < i < |s| ==> s[i] != '@';
    assert forall i :: dot1 < i < |s| ==> s[i] != '.';
    assert forall i :: dot2 < i < |s| ==> s[i] != '.';
  }

  /** The `trim` setter on `fullname`. */
  function NormaliseFullname(s: string): string {
    Trim(s)
  }

  /** The `lowercase` then `trim` setters on `email`. */
  function NormaliseEmail(s: string): string {
    Trim(Lower(s))
  }

  lemma NormaliseFullnameIdempotent(s: string)
    ensures NormaliseFullname(NormaliseFullname(s)) == NormaliseFullname(s)
  {
    TrimIdempotent(s);
  }

  lemma NormaliseEmailIdempotent(s: string)
    ensures NormaliseEmail(NormaliseEmail(s)) == NormaliseEmail(s)
  {
    var t := Trim(Lower(s));
    LowerCommutesWithTrim(Lower(s));
    LowerIdempotent(s);
    TrimIdempotent(Lower(s));
    assert Lower(t) == Trim(Lower(Lower(s)));
  }

  /** A user document as a caller hands it to `new User(...)`. */
  datatype RawUser = RawUser(fullname: Option<string>, email: Option<string>, password: Option<string>)

  /** A user document as it is stored. */
  datatype UserDoc = UserDoc(fullname: string, email: string, password: string)

  datatype Path = FullnamePath | EmailPath | PasswordPath

  datatype SaveError = ValidationError(paths: set<Path>) | DuplicateKey

  /** Each path is checked on the value its setters produced; `required`
      rejects an absent or empty string, and `match` runs after it. */
  predicate FullnameValid(v: Option<string>) {
    v.Some? && NormaliseFullname(v.value) != ""
  }

  predicate EmailValid(v: Option<string>) {
    v.Some? && NormaliseEmail(v.value) != "" && SchemaEmailMatches(NormaliseEmail(v.value))
  }

  predicate PasswordValid(v: Option<string>) {
    Truthy(v)
  }

  /** What every stored document satisfies. */
  predicate WellFormed(d: UserDoc) {
    && d.fullname != "" && NormaliseFullname(d.fullname) == d.fullname
    && NormaliseEmail(d.email) == d.email && SchemaEmailMatches(d.email)
    && d.password != ""
  }

  /** The paths whose validators failed, from the three verdicts. */
  function PathsFailing(fullnameOk: bool, emailOk: bool, passwordOk: bool): (paths: set<Path>)
    ensures FullnamePath in paths <==> !fullnameOk
    ensures EmailPath in paths <==> !emailOk
    ensures PasswordPath in paths <==> !passwordOk
    ensures paths == {} <==> fullnameOk && emailOk && passwordOk
  {
    (if fullnameOk then {} else {FullnamePath})
    + (if emailOk then {} else {EmailPath})
    + (if passwordOk then {} else {PasswordPath})
  }

  /** The paths whose validators reject the document. */
  function FailedPaths(raw: RawUser): set<Path> {
    PathsFailing(FullnameValid(raw.fullname), EmailValid(raw.email), PasswordValid(raw.password))
  }

  /** Casting and validating a document, as `save()` does before writing it:
      the stored values are the normalised inputs, and a rejection names
      exactly the paths that failed, at least one. */
  function Validate(raw: RawUser): (r: Result<UserDoc, SaveError>)
    ensures r.Success? <==> FullnameValid(raw.fullname) && EmailValid(raw.email) && PasswordValid(raw.password)
    ensures r.Success? ==> r.value.fullname == NormaliseFullname(raw.fullname.value)
    ensures r.Success? ==> r.value.email == NormaliseEmail(raw.email.value)
    ensures r.Success? ==> r.value.password == raw.password.value
    ensures r.Failure? ==> r.error == ValidationError(FailedPaths(raw)) && r.error.paths != {}
  {
    var fullnameOk, emailOk, passwordOk := FullnameValid(raw.fullname), EmailValid(raw.email), PasswordValid(raw.password);
    if fullnameOk && emailOk && passwordOk then
      Success(UserDoc(NormaliseFullname(raw.fullname.value), NormaliseEmail(raw.email.value), raw.password.value))
    else
      Failure(ValidationError(PathsFailing(fullnameOk, emailOk, passwordOk)))
  }

  /** A document that passed validation is stored in normal form: running
      the setters and validators on it again changes and rejects nothing. */
  lemma ValidatedIsWellFormed(raw: RawUser)
    requires Validate(raw).Success?
    ensures WellFormed(Validate(raw).value)
  {
    NormaliseFullnameIdempotent(raw.fullname.value);
    NormaliseEmailIdempotent(raw.email.value);
  }

  /** No two stored users share a fullname, and no two share an email. */
  predicate Distinct(docs: seq<UserDoc>) {
    forall i, j :: 0 <= i < j < |docs| ==> docs[i].fullname != docs[j].fullname && docs[i].email != docs[j].email
  }

  predicate Clashes(docs: seq<UserDoc>, d: UserDoc) {
    exists i :: 0 <= i < |docs| && (docs[i].fullname == d.fullname || docs[i].email == d.email)
  }

  /** `new User(raw).save()` against the collection `docs`: validation first,
      then the unique indexes. */
  function Save(docs: seq<UserDoc>, raw: RawUser): (r: Result<seq<UserDoc>, SaveError>)
    ensures Validate(raw).Failure? ==> r == Failure(Validate(raw).error)
    ensures Validate(raw).Success? && Clashes(docs, Validate(raw).value) ==> r == Failure(DuplicateKey)
    ensures r.Success? <==> Validate(raw).Success? && !Clashes(docs, Validate(raw).value)
    ensures r.Success? ==> r.value == docs + [Validate(raw).value]
  {
    match Validate(raw)
    case Failure(e) => Failure(e)
    case Success(d) => if Clashes(docs, d) then Failure(DuplicateKey) else Success(docs + [d])
  }

  /** The unique indexes keep the collection free of repeated fullnames and
      emails. */
  lemma SaveKeepsDistinct(docs: seq<UserDoc>, raw: RawUser)
    requires Distinct(docs) && Save(docs, raw).Success?
    ensures Distinct(Save(docs, raw).value)
  {
    var d := Validate(raw).value;
    var after := docs + [d];
    assert !Clashes(docs, d);
    forall i, j | 0 <= i < j < |after|
      ensures after[i].fullname != after[j].fullname && after[i].email != after[j].email
    {
      if j == |docs| {
        assert after[j] == d && after[i] == docs[i];
      }
    }
  }
}
