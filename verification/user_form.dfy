/**
 * The user form context: the edited record, the per-field error messages,
 * `updateField`, `validate` and the gate in `submitForm`.  React's setters
 * are modelled as immediate updates of one immutable form state; calling
 * `onSubmit` is returned as the record it would be called with.
 */
module UserForm {
  import opened Wrappers

  /** `UserFormData` */
  datatype UserFormData = UserFormData(id: int, name: string, email: string, role: string)

  /** `keyof Omit<UserFormData, 'id'>`: the fields a user can edit. */
  datatype Field = NameField | EmailField | RoleField

  /** `UserFormErrors`: a field without an entry has no error. */
  type UserFormErrors = map<Field, string>

  datatype FormState = FormState(formData: UserFormData, errors: UserFormErrors)

  /** The provider's first state: `initialData` and no errors. */
  function Provide(initialData: UserFormData): (st: FormState)
    ensures st.formData == initialData && st.errors == map[]
  {
    FormState(initialData, map[])
  }

  function Get(d: UserFormData, f: Field): string
  {
    match f
    case NameField => d.name
    case EmailField => d.email
    case RoleField => d.role
  }

  /**
   * `updateField(field, value)`: `{...prev, [field]: value}` on the data and
   * `{...prev, [field]: undefined}` on the errors.
   */
  function UpdateField(st: FormState, field: Field, value: string): (r: FormState)
    ensures Get(r.formData, field) == value
    ensures r.formData.id == st.formData.id
    ensures forall g :: g != field ==> Get(r.formData, g) == Get(st.formData, g)
    ensures field !in r.errors
    ensures forall g :: g != field ==> (g in r.errors <==> g in st.errors)
    ensures forall g :: g != field && g in st.errors ==> r.errors[g] == st.errors[g]
  {
    var d := st.formData;
    var d' := match field
      case NameField => d.(name := value)
      case EmailField => d.(email := value)
      case RoleField => d.(role := value);
    FormState(d', st.errors - {field})
  }

  /** Updating one field twice keeps only the later value. */
  lemma UpdateFieldLastWins(st: FormState, field: Field, a: string, b: string)
    ensures UpdateField(UpdateField(st, field, a), field, b) == UpdateField(st, field, b)
  {
  }

  /** Updates of two different fields can be made in either order. */
  lemma UpdateFieldsCommute(st: FormState, f: Field, g: Field, a: string, b: string)
    requires f != g
    ensures UpdateField(UpdateField(st, f, a), g, b) == UpdateField(UpdateField(st, g, b), f, a)
  {
  }

  // ----- whitespace, `trim` and `\s` -----

  /** The characters `trim` removes and `\s` matches, restricted to ASCII: tab, line feed, vertical tab, form feed, carriage return and space. */
  predicate IsWhitespace(c: char)
  {
    c == ' ' || c == '\t' || c == '\n' || c == '\r' || c == '\U{000B}' || c == '\U{000C}'
  }

  predicate AllWhitespace(s: string)
  {
    forall k :: 0 <= k < |s| ==> IsWhitespace(s[k])
  }

  /** The number of whitespace characters `s` starts with. */
  function LeadingSpaces(s: string): (n: nat)
    ensures n <= |s|
    decreases |s|
  {
    if s != [] && IsWhitespace(s[0]) then 1 + LeadingSpaces(s[1..]) else 0
  }

  /** The number of whitespace characters `s` ends with. */
  function TrailingSpaces(s: string): (n: nat)
    ensures n <= |s|
    decreases |s|
  {
    if s != [] && IsWhitespace(s[|s| - 1]) then 1 + TrailingSpaces(s[..|s| - 1]) else 0
  }

  function TrimStart(s: string): string
  {
    s[LeadingSpaces(s)..]
  }

  function TrimEnd(s: string): string
  {
    s[..|s| - TrailingSpaces(s)]
  }

  /** `String.prototype.trim` */
  function Trim(s: string): string
  {
    TrimEnd(TrimStart(s))
  }

  lemma AllWhitespaceConcat(a: string, b: string)
    ensures AllWhitespace(a + b) <==> AllWhitespace(a) && AllWhitespace(b)
  {
    if AllWhitespace(a + b) {
      forall k | 0 <= k < |a|
        ensures IsWhitespace(a[k])
      {
        assert a[k] == (a + b)[k];
      }
      forall k | 0 <= k < |b|
        ensures IsWhitespace(b[k])
      {
        assert b[k] == (a + b)[|a| + k];
      }
    }
  }

  /** The leading run is all whitespace and is followed by no whitespace. */
  lemma {:induction false} LeadingSpacesSpec(s: string)
    ensures AllWhitespace(s[..LeadingSpaces(s)])
    ensures LeadingSpaces(s) < |s| ==> !IsWhitespace(s[LeadingSpaces(s)])
    decreases |s|
  {
    if s != [] && IsWhitespace(s[0]) {
      var t := s[1..];
      LeadingSpacesSpec(t);
      var n := LeadingSpaces(t);
      assert s[..n + 1] == [s[0]] + t[..n];
      AllWhitespaceConcat([s[0]], t[..n]);
      if n < |t| {
        assert s[n + 1] == t[n];
      }
    }
  }

  /** The trailing run is all whitespace and is preceded by no whitespace. */
  lemma {:induction false} TrailingSpacesSpec(s: string)
    ensures AllWhitespace(s[|s| - TrailingSpaces(s)..])
    ensures TrailingSpaces(s) < |s| ==> !IsWhitespace(s[|s| - TrailingSpaces(s) - 1])
    decreases |s|
  {
    if s != [] && IsWhitespace(s[|s| - 1]) {
      var last := |s| - 1;
      var t := s[..last];
      TrailingSpacesSpec(t);
      var n := TrailingSpaces(t);
      assert TrailingSpaces(s) == n + 1;
      var m := last - n;
      assert t[m..] == s[m..last];
      assert s[m..] == s[m..last] + [s[last]];
      AllWhitespaceConcat(t[m..], [s[last]]);
      if n < |t| {
        assert s[m - 1] == t[m - 1];
      }
    }
  }

  /** `trim` leaves no whitespace at either end and removes nothing from between. */
  lemma TrimSpec(s: string)
    ensures exists i, j :: 0 <= i <= j <= |s| && Trim(s) == s[i..j] && AllWhitespace(s[..i]) && AllWhitespace(s[j..])
    ensures Trim(s) != [] ==> !IsWhitespace(Trim(s)[0]) && !IsWhitespace(Trim(s)[|Trim(s)| - 1])
  {
    var i := LeadingSpaces(s);
    var t := s[i..];
    var j := i + |t| - TrailingSpaces(t);
    LeadingSpacesSpec(s);
    TrailingSpacesSpec(t);
    assert Trim(s) == s[i..j];
    assert t[|t| - TrailingSpaces(t)..] == s[j..];
    assert 0 <= i <= j <= |s| && Trim(s) == s[i..j] && AllWhitespace(s[..i]) && AllWhitespace(s[j..]);
    if Trim(s) != [] {
      assert Trim(s)[0] == s[i];
      assert Trim(s)[|Trim(s)| - 1] == t[|t| - TrailingSpaces(t) - 1];
    }
  }

  /** A value trims to the empty string exactly when it is all whitespace. */
  lemma TrimEmpty(s: string)
    ensures Trim(s) == [] <==> AllWhitespace(s)
  {
    TrimSpec(s);
    var i, j :| 0 <= i <= j <= |s| && Trim(s) == s[i..j] && AllWhitespace(s[..i]) && AllWhitespace(s[j..]);
    if Trim(s) == [] {
      assert s == s[..i] + s[j..];
      AllWhitespaceConcat(s[..i], s[j..]);
    } else {
      assert s[i] == Trim(s)[0];
    }
  }

  // ----- the email pattern `^[^@\s]+@[^@\s]+\.[^@\s]+$` -----

  /** One character class of the pattern: a literal, or `[^@\s]`. */
  datatype Atom = Char(c: char) | NotAtNorSpace

  /** A pattern item: the class once, or `+` (one or more times). */
  datatype Piece = Once(atom: Atom) | OneOrMore(atom: Atom)

  predicate Accepts(a: Atom, c: char)
  {
    match a
    case Char(x) => c == x
    case NotAtNorSpace => c != '@' && !IsWhitespace(c)
  }

  /**
   * Whether the pattern matches the whole of `s` (it is anchored by `^` and
   * `$`), trying every length for a `+` item as a backtracking regular
   * expression engine does.
   */
  predicate Match(p: seq<Piece>, s: string)
    decreases |s|, |p|
  {
    if p == [] then s == []
    else if s == [] || !Accepts(p[0].atom, s[0]) then false
    else match p[0]
      case Once(_) => Match(p[1..], s[1..])
      case OneOrMore(a) => Match(p[1..], s[1..]) || Match(p, s[1..])
  }

  /** `[^@\s]+` */
  const Word := OneOrMore(NotAtNorSpace)

  /** `[^@\s]+\.[^@\s]+`, the domain after the `@`. */
  const DomainPattern: seq<Piece> := [Word, Once(Char('.')), Word]

  /** `/^[^@\s]+@[^@\s]+\.[^@\s]+$/` */
  const EmailPattern: seq<Piece> := [Word, Once(Char('@'))] + DomainPattern

  predicate NoAtNorSpace(s: string)
  {
    forall k :: 0 <= k < |s| ==> s[k] != '@' && !IsWhitespace(s[k])
  }

  /** A dot that is neither the first nor the last character. */
  ghost predicate InnerDot(d: string)
  {
    exists k :: 0 < k < |d| - 1 && d[k] == '.'
  }

  /**
   * What the pattern accepts, stated directly: a non-empty local part, one
   * `@`, and a domain with a dot that is neither its first nor its last
   * character, with no other `@` and no whitespace anywhere.
   */
  ghost predicate EmailShape(s: string)
  {
    exists i :: 0 < i < |s| && s[i] == '@' && NoAtNorSpace(s[..i]) && NoAtNorSpace(s[i + 1..]) && InnerDot(s[i + 1..])
  }

  /** A `+` item matches a non-empty prefix its class accepts throughout, then the rest matches the remaining pattern. */
  lemma {:induction false} PlusSplit(a: Atom, p: seq<Piece>, s: string)
    requires Match([OneOrMore(a)] + p, s)
    ensures exists j :: 1 <= j <= |s| && (forall k :: 0 <= k < j ==> Accepts(a, s[k])) && Match(p, s[j..])
    decreases |s|
  {
    var pp := [OneOrMore(a)] + p;
    assert pp[0] == OneOrMore(a) && pp[1..] == p;
    if Match(p, s[1..]) {
      assert Match(p, s[1..]) && 1 <= 1 <= |s| && (forall k :: 0 <= k < 1 ==> Accepts(a, s[k]));
    } else {
      PlusSplit(a, p, s[1..]);
      var j :| 1 <= j <= |s[1..]| && (forall k :: 0 <= k < j ==> Accepts(a, s[1..][k])) && Match(p, s[1..][j..]);
      assert s[1..][j..] == s[j + 1..];
      assert forall k :: 0 <= k < j + 1 ==> Accepts(a, s[k]) by {
        forall k | 0 <= k < j + 1
          ensures Accepts(a, s[k])
        {
          if k > 0 {
            assert s[k] == s[1..][k - 1];
          }
        }
      }
    }
  }

  /** Conversely, any such split is a match of the `+` item followed by the rest. */
  lemma {:induction false} PlusJoin(a: Atom, p: seq<Piece>, s: string, j: nat)
    requires 1 <= j <= |s| && (forall k :: 0 <= k < j ==> Accepts(a, s[k])) && Match(p, s[j..])
    ensures Match([OneOrMore(a)] + p, s)
    decreases j
  {
    var pp := [OneOrMore(a)] + p;
    assert pp[0] == OneOrMore(a) && pp[1..] == p;
    if j > 1 {
      assert s[1..][j - 1..] == s[j..];
      PlusJoin(a, p, s[1..], j - 1);
    }
  }

  lemma OnceStep(a: Atom, p: seq<Piece>, s: string)
    ensures Match([Once(a)] + p, s) <==> s != [] && Accepts(a, s[0]) && Match(p, s[1..])
  {
    var pp := [Once(a)] + p;
    assert pp[0] == Once(a) && pp[1..] == p;
  }

  /** The last item `[^@\s]+` matches exactly the non-empty strings free of `@` and whitespace. */
  lemma LastPlus(t: string)
    ensures Match([Word], t) <==> t != [] && NoAtNorSpace(t)
  {
    var p: seq<Piece> := [];
    assert [Word] == [Word] + p;
    if Match([Word] + p, t) {
      PlusSplit(NotAtNorSpace, p, t);
    }
    if t != [] && NoAtNorSpace(t) {
      assert t[|t|..] == [];
      PlusJoin(NotAtNorSpace, p, t, |t|);
    }
  }

  /** Whatever the domain pattern matches is free of `@` and whitespace and has an inner dot. */
  lemma DomainMatchSound(d: string)
    requires Match(DomainPattern, d)
    ensures NoAtNorSpace(d) && InnerDot(d)
  {
    var tail: seq<Piece> := [Word];
    var rest := [Once(Char('.'))] + tail;
    assert DomainPattern == [Word] + rest;
    PlusSplit(NotAtNorSpace, rest, d);
    var j :| 1 <= j <= |d| && (forall k :: 0 <= k < j ==> Accepts(NotAtNorSpace, d[k])) && Match(rest, d[j..]);
    OnceStep(Char('.'), tail, d[j..]);
    var e := d[j + 1..];
    assert d[j..][1..] == e;
    LastPlus(e);
    assert d[j] == '.';
    forall k | j < k < |d|
      ensures d[k] != '@' && !IsWhitespace(d[k])
    {
      assert d[k] == e[k - j - 1];
    }
  }

  /** Every domain free of `@` and whitespace with an inner dot is matched by the domain pattern. */
  lemma DomainMatchComplete(d: string)
    requires NoAtNorSpace(d) && InnerDot(d)
    ensures Match(DomainPattern, d)
  {
    var tail: seq<Piece> := [Word];
    var rest := [Once(Char('.'))] + tail;
    assert DomainPattern == [Word] + rest;
    var j :| 0 < j < |d| - 1 && d[j] == '.';
    var e := d[j + 1..];
    assert NoAtNorSpace(e) by {
      forall k | 0 <= k < |e|
        ensures e[k] != '@' && !IsWhitespace(e[k])
      {
        assert e[k] == d[j + 1 + k];
      }
    }
    LastPlus(e);
    assert d[j..][1..] == e;
    OnceStep(Char('.'), tail, d[j..]);
    PlusJoin(NotAtNorSpace, rest, d, j);
  }

  /** The domain part of the pattern, `[^@\s]+\.[^@\s]+`, matches exactly the domains `EmailShape` describes. */
  lemma DomainMatch(d: string)
    ensures Match(DomainPattern, d) <==> NoAtNorSpace(d) && InnerDot(d)
  {
    if Match(DomainPattern, d) {
      DomainMatchSound(d);
    }
    if NoAtNorSpace(d) && InnerDot(d) {
      DomainMatchComplete(d);
    }
  }

  /** Whatever the pattern accepts has the shape of `EmailShape`. */
  lemma EmailMatchSound(s: string)
    requires Match(EmailPattern, s)
    ensures EmailShape(s)
  {
    var rest := [Once(Char('@'))] + DomainPattern;
    assert EmailPattern == [Word] + rest;
    PlusSplit(NotAtNorSpace, rest, s);
    var i :| 1 <= i <= |s| && (forall k :: 0 <= k < i ==> Accepts(NotAtNorSpace, s[k])) && Match(rest, s[i..]);
    OnceStep(Char('@'), DomainPattern, s[i..]);
    var d := s[i + 1..];
    assert s[i..][1..] == d;
    DomainMatchSound(d);
    assert s[i] == '@';
    assert NoAtNorSpace(s[..i]);
  }

  /** Every address of the shape of `EmailShape` is accepted by the pattern. */
  lemma EmailMatchComplete(s: string)
    requires EmailShape(s)
    ensures Match(EmailPattern, s)
  {
    var rest := [Once(Char('@'))] + DomainPattern;
    assert EmailPattern == [Word] + rest;
    var i :| 0 < i < |s| && s[i] == '@' && NoAtNorSpace(s[..i]) && NoAtNorSpace(s[i + 1..]) && InnerDot(s[i + 1..]);
    var d := s[i + 1..];
    DomainMatchComplete(d);
    assert s[i..][1..] == d;
    OnceStep(Char('@'), DomainPattern, s[i..]);
    forall k | 0 <= k < i
      ensures Accepts(NotAtNorSpace, s[k])
    {
      assert s[k] == s[..i][k];
    }
    PlusJoin(NotAtNorSpace, rest, s, i);
  }

  /** The pattern accepts exactly the addresses of `EmailShape`. */
  lemma EmailMatchIff(s: string)
    ensures Match(EmailPattern, s) <==> EmailShape(s)
  {
    if Match(EmailPattern, s) {
      EmailMatchSound(s);
    }
    if EmailShape(s) {
      EmailMatchComplete(s);
    }
  }

  /** An accepted address has exactly one `@` and no whitespace. */
  lemma EmailShapeOneAt(s: string, i: int, i': int)
    requires EmailShape(s)
    requires 0 <= i < |s| && 0 <= i' < |s| && s[i] == '@' && s[i'] == '@'
    ensures i == i'
    ensures forall k :: 0 <= k < |s| ==> !IsWhitespace(s[k])
  {
    var at :| 0 < at < |s| && s[at] == '@' && NoAtNorSpace(s[..at]) && NoAtNorSpace(s[at + 1..]) && InnerDot(s[at + 1..]);
    forall k | 0 <= k < |s| && k != at
      ensures s[k] != '@' && !IsWhitespace(s[k])
    {
      if k < at {
        assert s[k] == s[..at][k];
      } else {
        assert s[k] == s[at + 1..][k - at - 1];
      }
    }
  }

  // ----- validate and submit -----

  const NameRequired := "Name is required"
  const InvalidEmail := "Invalid email address"
  const RoleRequired := "Role is required"

  /** The error map `validate` builds from scratch for the current data. */
  function NewErrors(d: UserFormData): (e: UserFormErrors)
    ensures NameField in e <==> Trim(d.name) == []
    ensures EmailField in e <==> !Match(EmailPattern, d.email)
    ensures RoleField in e <==> Trim(d.role) == []
    ensures NameField in e ==> e[NameField] == NameRequired
    ensures EmailField in e ==> e[EmailField] == InvalidEmail
    ensures RoleField in e ==> e[RoleField] == RoleRequired
  {
    var e1: UserFormErrors := if Trim(d.name) == [] then map[NameField := NameRequired] else map[];
    var e2 := if !Match(EmailPattern, d.email) then e1[EmailField := InvalidEmail] else e1;
    if Trim(d.role) == [] then e2[RoleField := RoleRequired] else e2
  }

  /** `validate()`: replace the errors with those of the current data and report whether there are none. */
  function Validate(st: FormState): (r: (FormState, bool))
    ensures r.0.formData == st.formData
    ensures r.0.errors == NewErrors(st.formData)
    ensures r.1 <==> r.0.errors == map[]
  {
    var e := NewErrors(st.formData);
    (st.(errors := e), |e| == 0)
  }

  /** The rules of `validate` in the form's own terms. */
  lemma ValidateRules(st: FormState)
    ensures var e := Validate(st).0.errors;
      && (NameField in e <==> AllWhitespace(st.formData.name))
      && (EmailField in e <==> !EmailShape(st.formData.email))
      && (RoleField in e <==> AllWhitespace(st.formData.role))
    ensures Validate(st).1 <==>
      !AllWhitespace(st.formData.name) && EmailShape(st.formData.email) && !AllWhitespace(st.formData.role)
  {
    TrimEmpty(st.formData.name);
    TrimEmpty(st.formData.role);
    EmailMatchIff(st.formData.email);
    var e := Validate(st).0.errors;
    if Validate(st).1 {
      assert NameField !in e && EmailField !in e && RoleField !in e;
    } else {
      var f :| f in e;
      match f
      case NameField =>
      case EmailField =>
      case RoleField =>
    }
  }

  /** Errors left over from an earlier run do not survive: only the data decides the new errors. */
  lemma ValidateForgetsOldErrors(st: FormState, stale: UserFormErrors)
    ensures Validate(st) == Validate(st.(errors := stale))
  {
  }

  /** `submitForm()`: validate, then call `onSubmit` with the data when valid and nothing otherwise. */
  function SubmitForm(st: FormState): (r: (FormState, Option<UserFormData>))
    ensures r.0 == Validate(st).0
    ensures r.1.Some? <==> Validate(st).1
    ensures r.1.Some? ==> r.1.value == st.formData
  {
    var (st', ok) := Validate(st);
    if ok then (st', Some(st.formData)) else (st', None)
  }

  /** A form with blank name, address and role is refused with all three messages. */
  lemma SubmitBlankForm(id: int)
    ensures var r := SubmitForm(FormState(UserFormData(id, "", "", ""), map[]));
      r.1 == None && r.0.errors == map[NameField := NameRequired, EmailField := InvalidEmail, RoleField := RoleRequired]
  {
    assert !Match(EmailPattern, "");
  }

  /** A plain address is accepted by the pattern. */
  lemma ExampleAddressAccepted()
    ensures Match(EmailPattern, "ann@example.org")
  {
    var s := "ann@example.org";
    assert s[..3] == "ann" && s[4..] == "example.org";
    assert NoAtNorSpace(s[..3]);
    assert NoAtNorSpace(s[4..]);
    assert s[4..][7] == '.';
    EmailMatchIff(s);
  }

  /** A well-formed record is submitted as it is, and a stale error is dropped. */
  lemma SubmitGoodForm()
    ensures var d := UserFormData(7, "Ann", "ann@example.org", "admin");
      SubmitForm(FormState(d, map[NameField := NameRequired])) == (FormState(d, map[]), Some(d))
  {
    ExampleAddressAccepted();
    TrimEmpty("Ann");
    TrimEmpty("admin");
    assert !IsWhitespace("Ann"[0]) && !IsWhitespace("admin"[0]);
  }
}
