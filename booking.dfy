/**
 The booking form's schema: five string fields, each trimmed (except the
 service) and checked against length bounds, the email also against an
 address-shape check; the issues a failed parse reports, in field order and,
 within a field, in check order; and the field-to-message map the submit
 handler builds from them, where a later issue for a field overwrites an
 earlier one.
 */
module Booking {
  import opened Wrappers

  datatype Field = Name | Email | Phone | Service | Message

  const ALL_FIELDS: set<Field> := {Name, Email, Phone, Service, Message}

  /** The form's values. Every field always holds a string; the form starts
      with all of them empty. */
  datatype FormData = FormData(name: string, email: string, phone: string, service: string, message: string)
  {
    function Get(f: Field): string
    {
      match f
      case Name => name
      case Email => email
      case Phone => phone
      case Service => service
      case Message => message
    }

    /** `{ ...prev, [field]: value }`. */
    function Set(f: Field, v: string): (d: FormData)
      ensures d.Get(f) == v
      ensures forall g :: g != f ==> d.Get(g) == Get(g)
    {
      match f
      case Name => this.(name := v)
      case Email => this.(email := v)
      case Phone => this.(phone := v)
      case Service => this.(service := v)
      case Message => this.(message := v)
    }
  }

  const INITIAL_DATA := FormData("", "", "", "", "")

  /** The service picker's options. The schema never consults this list. */
  const SERVICES: seq<string> := ["Cinematography", "Drone Shoots", "Video Editing",
                                  "Creative Direction", "Wedding Film", "Brand Shoot"]

  /** The checks of the schema that can fail, one per message. */
  datatype Check = NameRequired | NameTooLong | InvalidEmail | EmailTooLong
                 | PhoneTooLong | ServiceRequired | MessageTooLong

  /** The message each failing check reports: the schema's own text where it
      gives one, the validation library's default text for a maximum length
      otherwise. */
  function MessageText(c: Check): (m: string)
    ensures m != ""
  {
    match c
    case NameRequired => "Name is required"
    case NameTooLong => "String must contain at most 100 character(s)"
    case InvalidEmail => "Invalid email address"
    case EmailTooLong => "String must contain at most 255 character(s)"
    case PhoneTooLong => "String must contain at most 20 character(s)"
    case ServiceRequired => "Please select a service"
    case MessageTooLong => "String must contain at most 1000 character(s)"
  }

  /** One reported problem: the field it is about and the check that failed. */
  datatype Issue = Issue(path: Field, check: Check)
  {
    function message(): string { MessageText(check) }
  }

  /* ---------------------------------------------------------------------- */
  /* Trimming                                                                */
  /* ---------------------------------------------------------------------- */

  /** The code points ECMAScript's `String.prototype.trim` removes: the White
      Space and Line Terminator characters of the ECMAScript language. */
  const WHITESPACE: set<char> :=
    {'\t', '\n', '\U{000B}', '\U{000C}', '\r', ' ', '\U{00A0}', '\U{1680}',
     '\U{2000}', '\U{2001}', '\U{2002}', '\U{2003}', '\U{2004}', '\U{2005}', '\U{2006}',
     '\U{2007}', '\U{2008}', '\U{2009}', '\U{200A}',
     '\U{2028}', '\U{2029}', '\U{202F}', '\U{205F}', '\U{3000}', '\U{FEFF}'}

  predicate IsWhitespace(c: char)
  {
    c in WHITESPACE
  }

  /** Drops the leading whitespace. */
  function TrimStart(s: string): (r: string)
    ensures |r| <= |s|
  {
    if s != [] && IsWhitespace(s[0]) then TrimStart(s[1..]) else s
  }

  /** Drops the trailing whitespace. */
  function TrimEnd(s: string): (r: string)
    ensures |r| <= |s|
  {
    if s != [] && IsWhitespace(s[|s| - 1]) then TrimEnd(s[..|s| - 1]) else s
  }

  predicate AllWhitespace(s: string)
  {
    forall i :: 0 <= i < |s| ==> IsWhitespace(s[i])
  }

  /** `s.trim()`. */
  function Trim(s: string): (r: string)
    ensures |r| <= |s|
  {
    TrimEnd(TrimStart(s))
  }

  /** What `TrimStart` keeps is a suffix that starts with a non-whitespace
      character, and everything it drops is whitespace. */
  lemma {:induction false} TrimStartSpec(s: string)
    ensures TrimStart(s) == s[|s| - |TrimStart(s)|..]
    ensures TrimStart(s) == [] || !IsWhitespace(TrimStart(s)[0])
    ensures AllWhitespace(s[..|s| - |TrimStart(s)|])
  {
    if s != [] && IsWhitespace(s[0]) {
      TrimStartSpec(s[1..]);
      var k := |s| - |TrimStart(s)|;
      assert s[1..][..k - 1] == s[1..k];
      assert forall i :: 1 <= i < k ==> s[i] == s[1..][..k - 1][i - 1];
    }
  }

  /** What `TrimEnd` keeps is a prefix that ends with a non-whitespace
      character, and everything it drops is whitespace. */
  lemma {:induction false} TrimEndSpec(s: string)
    ensures TrimEnd(s) == s[..|TrimEnd(s)|]
    ensures TrimEnd(s) == [] || !IsWhitespace(TrimEnd(s)[|TrimEnd(s)| - 1])
    ensures AllWhitespace(s[|TrimEnd(s)|..])
  {
    if s != [] && IsWhitespace(s[|s| - 1]) {
      var n := |s| - 1;
      TrimEndSpec(s[..n]);
      var k := |TrimEnd(s)|;
      assert s[..n][k..] + [s[n]] == s[k..];
      assert forall i :: 0 <= i < n - k ==> s[k..][i] == s[..n][k..][i];
    }
  }

  /** The trimmed string has no whitespace at either end, and it is empty
      exactly when the input is all whitespace. */
  lemma TrimSpec(s: string)
    ensures Trim(s) == [] || (!IsWhitespace(Trim(s)[0]) && !IsWhitespace(Trim(s)[|Trim(s)| - 1]))
    ensures Trim(s) == [] <==> AllWhitespace(s)
  {
    var t := TrimStart(s);
    TrimStartSpec(s);
    TrimEndSpec(t);
    var r := TrimEnd(t);
    if t == [] {
      assert s[..|s|] == s;
    } else {
      assert t[0] == s[|s| - |t|];
      assert !AllWhitespace(s);
      assert r[0] == t[0];
    }
  }

  lemma {:induction false} TrimStartPadded(ws: string, t: string)
    requires AllWhitespace(ws)
    requires t == [] || !IsWhitespace(t[0])
    ensures TrimStart(ws + t) == t
    decreases |ws|
  {
    if ws != [] {
      assert (ws + t)[1..] == ws[1..] + t;
      TrimStartPadded(ws[1..], t);
    } else {
      assert ws + t == t;
    }
  }

  lemma {:induction false} TrimEndPadded(t: string, ws: string)
    requires AllWhitespace(ws)
    requires t == [] || !IsWhitespace(t[|t| - 1])
    ensures TrimEnd(t + ws) == t
    decreases |ws|
  {
    if ws != [] {
      assert (t + ws)[..|t + ws| - 1] == t + ws[..|ws| - 1];
      TrimEndPadded(t, ws[..|ws| - 1]);
    } else {
      assert t + ws == t;
    }
  }

  /** Trimming undoes whitespace padding around a string with no whitespace at
      either end. */
  lemma TrimPadded(before: string, t: string, after: string)
    requires AllWhitespace(before) && AllWhitespace(after)
    requires t == [] || (!IsWhitespace(t[0]) && !IsWhitespace(t[|t| - 1]))
    ensures Trim(before + t + after) == t
  {
    if t == [] {
      assert AllWhitespace(before + t + after);
      assert before + t + after == before + after;
      TrimStartPadded(before + after, []);
      assert before + after + [] == before + after;
    } else {
      assert before + t + after == before + (t + after);
      assert (t + after)[0] == t[0];
      TrimStartPadded(before, t + after);
      TrimEndPadded(t, after);
    }
  }

  /** Trimming twice is trimming once. */
  lemma TrimIdempotent(s: string)
    ensures Trim(Trim(s)) == Trim(s)
  {
    var t := Trim(s);
    TrimSpec(s);
    TrimPadded([], t, []);
    assert [] + t + [] == t;
  }

  lemma TrimEmpty()
    ensures Trim("") == ""
  {
  }

  /* ---------------------------------------------------------------------- */
  /* The schema                                                              */
  /* ---------------------------------------------------------------------- */

  /** What each field must satisfy for the form to be accepted. `isEmail`
      stands for the address-shape check of the validation library. */
  predicate FieldOk(f: Field, v: string, isEmail: string -> bool)
    ensures v == "" ==> (FieldOk(f, v, isEmail) <==> f in {Phone, Message} || (f == Email && isEmail("")))
  {
    TrimEmpty();
    match f
    case Name => 1 <= |Trim(v)| <= 100
    case Email => isEmail(Trim(v)) && |Trim(v)| <= 255
    case Phone => |Trim(v)| <= 20
    case Service => |v| >= 1
    case Message => |Trim(v)| <= 1000
  }

  /** The form is accepted when every field passes its check; in particular
      the name, the email and the service are then filled in. */
  predicate Accepts(d: FormData, isEmail: string -> bool)
    ensures Accepts(d, isEmail) ==> Trim(d.name) != "" && isEmail(Trim(d.email)) && d.service != ""
  {
    if forall f :: FieldOk(f, d.Get(f), isEmail) then
      assert FieldOk(Name, d.Get(Name), isEmail) && FieldOk(Email, d.Get(Email), isEmail);
      assert FieldOk(Service, d.Get(Service), isEmail);
      true
    else
      false
  }

  /** Acceptance is the conjunction of the five field checks. */
  lemma AcceptsFieldByField(d: FormData, isEmail: string -> bool)
    ensures Accepts(d, isEmail) <==> (FieldOk(Name, d.name, isEmail) && FieldOk(Email, d.email, isEmail)
                                      && FieldOk(Phone, d.phone, isEmail) && FieldOk(Service, d.service, isEmail)
                                      && FieldOk(Message, d.message, isEmail))
  {
    if Accepts(d, isEmail) {
      assert FieldOk(Name, d.Get(Name), isEmail);
      assert FieldOk(Email, d.Get(Email), isEmail);
      assert FieldOk(Phone, d.Get(Phone), isEmail);
      assert FieldOk(Service, d.Get(Service), isEmail);
      assert FieldOk(Message, d.Get(Message), isEmail);
    }
  }

  /** The issues the checks of one field report, in the order the checks are
      declared; every check runs, so a field can report two issues. */
  function FieldIssues(f: Field, v: string, isEmail: string -> bool): (r: seq<Issue>)
    ensures r == [] <==> FieldOk(f, v, isEmail)
    ensures forall i :: i in r ==> i.path == f
    ensures |r| <= 2
  {
    match f
    case Name =>
      var t := Trim(v);
      (if |t| < 1 then [Issue(Name, NameRequired)] else [])
      + (if |t| > 100 then [Issue(Name, NameTooLong)] else [])
    case Email =>
      var t := Trim(v);
      (if !isEmail(t) then [Issue(Email, InvalidEmail)] else [])
      + (if |t| > 255 then [Issue(Email, EmailTooLong)] else [])
    case Phone =>
      if |Trim(v)| > 20 then [Issue(Phone, PhoneTooLong)] else []
    case Service =>
      if |v| < 1 then [Issue(Service, ServiceRequired)] else []
    case Message =>
      if |Trim(v)| > 1000 then [Issue(Message, MessageTooLong)] else []
  }

  /** All issues of a parse: the name's, the email's, the phone's, the
      service's and the message's, in the order the schema declares the fields. */
  function Issues(d: FormData, isEmail: string -> bool): (r: seq<Issue>)
    ensures r == [] <==> Accepts(d, isEmail)
    ensures forall i :: i in r ==> !FieldOk(i.path, d.Get(i.path), isEmail)
  {
    var r := FieldIssues(Name, d.name, isEmail) + FieldIssues(Email, d.email, isEmail)
             + FieldIssues(Phone, d.phone, isEmail) + FieldIssues(Service, d.service, isEmail)
             + FieldIssues(Message, d.message, isEmail);
    AcceptsFieldByField(d, isEmail);
    r
  }

  /** `bookingSchema.safeParse(formData)`: the trimmed values, or the issues. */
  function SafeParse(d: FormData, isEmail: string -> bool): (r: Result<FormData, seq<Issue>>)
    ensures r.Success? <==> Accepts(d, isEmail)
    ensures r.Success? ==> r.value == FormData(Trim(d.name), Trim(d.email), Trim(d.phone), d.service, Trim(d.message))
    ensures r.Failure? ==> r.error == Issues(d, isEmail) && r.error != []
  {
    var issues := Issues(d, isEmail);
    if issues == [] then Success(FormData(Trim(d.name), Trim(d.email), Trim(d.phone), d.service, Trim(d.message)))
    else Failure(issues)
  }

  /** Parsing the parsed values again accepts them unchanged: the output of a
      successful parse is a fixed point of the schema. */
  lemma SafeParseIdempotent(d: FormData, isEmail: string -> bool)
    requires SafeParse(d, isEmail).Success?
    ensures SafeParse(SafeParse(d, isEmail).value, isEmail) == SafeParse(d, isEmail)
  {
    var v := SafeParse(d, isEmail).value;
    TrimIdempotent(d.name);
    TrimIdempotent(d.email);
    TrimIdempotent(d.phone);
    TrimIdempotent(d.message);
    AcceptsFieldByField(d, isEmail);
    AcceptsFieldByField(v, isEmail);
  }

  /* ---------------------------------------------------------------------- */
  /* The field-to-message map                                                */
  /* ---------------------------------------------------------------------- */

  /** `fieldErrors[issue.path[0]] = issue.message` for each issue in turn:
      each issue adds at most one entry. */
  function FieldErrors(issues: seq<Issue>): (r: map<Field, string>)
    ensures |r| <= |issues|
  {
    if issues == [] then map[]
    else FieldErrors(issues[..|issues| - 1])[issues[|issues| - 1].path := issues[|issues| - 1].message()]
  }

  function Paths(issues: seq<Issue>): set<Field>
  {
    set i | i in issues :: i.path
  }

  /** No later issue is about the same field as issue `j`. */
  predicate LastFor(issues: seq<Issue>, j: nat)
    requires j < |issues|
  {
    forall l :: j < l < |issues| ==> issues[l].path != issues[j].path
  }

  /** The map's keys are exactly the fields some issue is about, and each holds
      the message of the last issue about it. */
  lemma {:induction false} FieldErrorsSpec(issues: seq<Issue>)
    ensures FieldErrors(issues).Keys == Paths(issues)
    ensures forall j :: 0 <= j < |issues| && LastFor(issues, j) ==>
              FieldErrors(issues)[issues[j].path] == issues[j].message()
  {
    if issues != [] {
      var n := |issues| - 1;
      var init := issues[..n];
      FieldErrorsSpec(init);
      assert issues == init + [issues[n]];
      assert Paths(issues) == Paths(init) + {issues[n].path};
      forall j | 0 <= j < |issues| && LastFor(issues, j)
        ensures FieldErrors(issues)[issues[j].path] == issues[j].message()
      {
        if j < n {
          assert issues[n].path != issues[j].path;
          assert LastFor(init, j);
        }
      }
    }
  }

  /** Every message in the map is non-empty, so the field-error guards read
      it as set. */
  lemma {:induction false} FieldErrorsNonEmpty(issues: seq<Issue>)
    ensures forall f :: f in FieldErrors(issues) ==> FieldErrors(issues)[f] != ""
  {
    if issues != [] {
      FieldErrorsNonEmpty(issues[..|issues| - 1]);
    }
  }

  /** The submit handler's loop over the issues. */
  method BuildFieldErrors(issues: seq<Issue>) returns (fieldErrors: map<Field, string>)
    ensures fieldErrors == FieldErrors(issues)
    ensures fieldErrors.Keys == Paths(issues)
    ensures forall j :: 0 <= j < |issues| && LastFor(issues, j) ==>
              fieldErrors[issues[j].path] == issues[j].message()
  {
    fieldErrors := map[];
    var i := 0;
    while i < |issues|
      invariant 0 <= i <= |issues|
      invariant fieldErrors == FieldErrors(issues[..i])
    {
      assert issues[..i + 1][..i] == issues[..i];
      fieldErrors := fieldErrors[issues[i].path := issues[i].message()];
      i := i + 1;
    }
    assert issues[..|issues|] == issues;
    FieldErrorsSpec(issues);
  }

  /* ---------------------------------------------------------------------- */
  /* Consequences                                                            */
  /* ---------------------------------------------------------------------- */

  /** After a failed submit, exactly the failing fields carry a message, and
      every message is non-empty. */
  lemma SubmitErrorsAreFailingFields(d: FormData, isEmail: string -> bool)
    ensures FieldErrors(Issues(d, isEmail)).Keys == set f | f in ALL_FIELDS && !FieldOk(f, d.Get(f), isEmail)
    ensures forall f :: f in FieldErrors(Issues(d, isEmail)) ==> FieldErrors(Issues(d, isEmail))[f] != ""
  {
    var issues := Issues(d, isEmail);
    FieldErrorsSpec(issues);
    FieldErrorsNonEmpty(issues);
    forall f | f in ALL_FIELDS && !FieldOk(f, d.Get(f), isEmail)
      ensures f in Paths(issues)
    {
      var fi := FieldIssues(f, d.Get(f), isEmail);
      assert fi[0] in fi;
      assert fi[0] in issues by {
        match f
        case Name =>
        case Email =>
        case Phone =>
        case Service =>
        case Message =>
      }
    }
  }

  /** Submitting the untouched form fails on the name, the email and the
      service, with their own messages; the optional fields pass. */
  lemma InitialSubmissionErrors(isEmail: string -> bool)
    requires !isEmail("")
    ensures !Accepts(INITIAL_DATA, isEmail)
    ensures FieldErrors(Issues(INITIAL_DATA, isEmail))
            == map[Name := MessageText(NameRequired), Email := MessageText(InvalidEmail), Service := MessageText(ServiceRequired)]
  {
    TrimEmpty();
    var issues := [Issue(Name, NameRequired), Issue(Email, InvalidEmail), Issue(Service, ServiceRequired)];
    assert FieldIssues(Name, "", isEmail) == [Issue(Name, NameRequired)] + [];
    assert FieldIssues(Email, "", isEmail) == [Issue(Email, InvalidEmail)] + [];
    assert Issues(INITIAL_DATA, isEmail) == issues;
    assert issues[..2][..1][..0] == [];
    assert FieldErrors(issues[..2][..1]) == map[Name := MessageText(NameRequired)];
    assert FieldErrors(issues[..2]) == map[Name := MessageText(NameRequired), Email := MessageText(InvalidEmail)];
  }

  /** Every issue of `s` is about `f`, as the issues of one field's checks are. */
  predicate AllAbout(s: seq<Issue>, f: Field)
  {
    forall i :: i in s ==> i.path == f
  }

  /** A prefix of a run of issues about `f` is about `f` too. */
  lemma AllAboutPrefix(b: seq<Issue>, f: Field, n: nat)
    requires AllAbout(b, f) && n <= |b|
    ensures AllAbout(b[..n], f)
  {
    forall i | i in b[..n] ensures i.path == f {
      var k :| 0 <= k < n && b[..n][k] == i;
      assert b[k] == i;
    }
  }

  /** The map built from two runs of issues is the second run's map laid over
      the first's: a later message for a field replaces an earlier one. */
  lemma {:induction false} FieldErrorsConcat(x: seq<Issue>, y: seq<Issue>)
    ensures FieldErrors(x + y) == FieldErrors(x) + FieldErrors(y)
    decreases |y|
  {
    if y == [] {
      assert x + y == x;
    } else {
      var n := |y| - 1;
      assert (x + y)[..|x + y| - 1] == x + y[..n];
      assert (x + y)[|x + y| - 1] == y[n];
      FieldErrorsConcat(x, y[..n]);
    }
  }

  /** The issues of one field yield at most that field's key, holding the
      last issue's message. */
  lemma {:induction false} FieldErrorsOfBlock(b: seq<Issue>, f: Field)
    requires AllAbout(b, f)
    ensures FieldErrors(b).Keys <= {f}
    ensures b != [] ==> f in FieldErrors(b) && FieldErrors(b)[f] == b[|b| - 1].message()
  {
    if b != [] {
      var n := |b| - 1;
      assert b[n] in b;
      AllAboutPrefix(b, f, n);
      FieldErrorsOfBlock(b[..n], f);
    }
  }

  /** The issues of one field give a map with at most that field's key. */
  lemma {:induction false} FieldErrorsKeys(b: seq<Issue>, f: Field)
    requires AllAbout(b, f)
    ensures FieldErrors(b).Keys <= {f}
  {
    if b != [] {
      var n := |b| - 1;
      assert b[n] in b;
      AllAboutPrefix(b, f, n);
      FieldErrorsKeys(b[..n], f);
    }
  }

  /** The block of `f` among five per-field blocks given in schema order. */
  function BlockOf(a: seq<Issue>, e: seq<Issue>, p: seq<Issue>, s: seq<Issue>, m: seq<Issue>, f: Field): seq<Issue>
  {
    match f
    case Name => a
    case Email => e
    case Phone => p
    case Service => s
    case Message => m
  }

  lemma FieldErrorsOfFive(a: seq<Issue>, e: seq<Issue>, p: seq<Issue>, s: seq<Issue>, m: seq<Issue>)
    ensures FieldErrors(a + e + p + s + m)
            == FieldErrors(a) + FieldErrors(e) + FieldErrors(p) + FieldErrors(s) + FieldErrors(m)
  {
    FieldErrorsConcat(a, e);
    FieldErrorsConcat(a + e, p);
    FieldErrorsConcat(a + e + p, s);
    FieldErrorsConcat(a + e + p + s, m);
  }

  /** The map of `f`'s block among five per-field maps given in schema order. */
  function MapOf(a: map<Field, string>, e: map<Field, string>, p: map<Field, string>,
                 s: map<Field, string>, m: map<Field, string>, f: Field): map<Field, string>
  {
    match f
    case Name => a
    case Email => e
    case Phone => p
    case Service => s
    case Message => m
  }

  /** Laying five single-field maps over each other loses nothing: each
      field's entry is its own map's. */
  lemma UnionOfFieldMaps(a: map<Field, string>, e: map<Field, string>, p: map<Field, string>,
                         s: map<Field, string>, m: map<Field, string>, f: Field)
    requires a.Keys <= {Name} && e.Keys <= {Email} && p.Keys <= {Phone} && s.Keys <= {Service} && m.Keys <= {Message}
    ensures f in (a + e + p + s + m) <==> f in MapOf(a, e, p, s, m, f)
    ensures f in (a + e + p + s + m) ==> (a + e + p + s + m)[f] == MapOf(a, e, p, s, m, f)[f]
  {
  }

  /** With one block per field, each field's entry comes from its own block. */
  lemma LastOfFiveBlocks(a: seq<Issue>, e: seq<Issue>, p: seq<Issue>, s: seq<Issue>, m: seq<Issue>, f: Field)
    requires AllAbout(a, Name) && AllAbout(e, Email) && AllAbout(p, Phone) && AllAbout(s, Service) && AllAbout(m, Message)
    requires BlockOf(a, e, p, s, m, f) != []
    ensures f in FieldErrors(a + e + p + s + m)
    ensures var own := BlockOf(a, e, p, s, m, f);
            FieldErrors(a + e + p + s + m)[f] == own[|own| - 1].message()
  {
    FieldErrorsOfFive(a, e, p, s, m);
    var ma, me, mp, ms, mm := FieldErrors(a), FieldErrors(e), FieldErrors(p), FieldErrors(s), FieldErrors(m);
    FieldErrorsKeys(a, Name);
    FieldErrorsKeys(e, Email);
    FieldErrorsKeys(p, Phone);
    FieldErrorsKeys(s, Service);
    FieldErrorsKeys(m, Message);
    UnionOfFieldMaps(ma, me, mp, ms, mm, f);
    var own := BlockOf(a, e, p, s, m, f);
    assert MapOf(ma, me, mp, ms, mm, f) == FieldErrors(own);
    FieldErrorsOfBlock(own, f);
  }

  /** A failing field shows the message of its last failing check. */
  lemma FieldShowsLastMessage(d: FormData, f: Field, isEmail: string -> bool)
    requires !FieldOk(f, d.Get(f), isEmail)
    ensures f in FieldErrors(Issues(d, isEmail))
    ensures var own := FieldIssues(f, d.Get(f), isEmail);
            FieldErrors(Issues(d, isEmail))[f] == own[|own| - 1].message()
  {
    var a := FieldIssues(Name, d.name, isEmail);
    var e := FieldIssues(Email, d.email, isEmail);
    var p := FieldIssues(Phone, d.phone, isEmail);
    var s := FieldIssues(Service, d.service, isEmail);
    var m := FieldIssues(Message, d.message, isEmail);
    assert BlockOf(a, e, p, s, m, f) == FieldIssues(f, d.Get(f), isEmail);
    LastOfFiveBlocks(a, e, p, s, m, f);
  }

  /** With an over-long malformed email both email checks fail, and the later
      one's message is the one kept. */
  lemma EmailLastMessageWins(d: FormData, isEmail: string -> bool)
    requires !isEmail(Trim(d.email)) && |Trim(d.email)| > 255
    ensures Email in FieldErrors(Issues(d, isEmail))
    ensures FieldErrors(Issues(d, isEmail))[Email] == MessageText(EmailTooLong)
  {
    FieldShowsLastMessage(d, Email, isEmail);
  }

  /** The service is never checked against the offered list: any non-empty
      string, even whitespace, passes where a listed service would. */
  lemma ServiceNotCheckedAgainstList(d: FormData, service: string, isEmail: string -> bool)
    requires Accepts(d, isEmail) && |service| >= 1
    ensures Accepts(d.Set(Service, service), isEmail)
    ensures " " !in SERVICES && FieldOk(Service, " ", isEmail)
  {
    var d' := d.Set(Service, service);
    forall f ensures FieldOk(f, d'.Get(f), isEmail) {
      assert f != Service ==> d'.Get(f) == d.Get(f);
    }
  }

  /** The phone and the message are optional: left empty, they never stop a
      booking whose name, email and service pass. */
  lemma RequiredFieldsSuffice(name: string, email: string, service: string, isEmail: string -> bool)
    requires FieldOk(Name, name, isEmail) && FieldOk(Email, email, isEmail) && FieldOk(Service, service, isEmail)
    ensures Accepts(FormData(name, email, "", service, ""), isEmail)
  {
    TrimEmpty();
    var d := FormData(name, email, "", service, "");
    forall f ensures FieldOk(f, d.Get(f), isEmail) {
    }
  }

  /** A concrete booking with only the required fields is accepted. */
  lemma JaneBookingAccepted(isEmail: string -> bool)
    requires isEmail("jane@example.com")
    ensures Accepts(FormData("Jane", "jane@example.com", "", "Wedding Film", ""), isEmail)
  {
    TrimPadded([], "Jane", []);
    assert [] + "Jane" + [] == "Jane";
    TrimPadded([], "jane@example.com", []);
    assert [] + "jane@example.com" + [] == "jane@example.com";
    RequiredFieldsSuffice("Jane", "jane@example.com", "Wedding Film", isEmail);
  }

  /** A malformed address always leaves a message on the email field. */
  lemma MalformedEmailReported(d: FormData, isEmail: string -> bool)
    requires !isEmail(Trim(d.email))
    ensures Email in FieldErrors(Issues(d, isEmail))
  {
    SubmitErrorsAreFailingFields(d, isEmail);
  }
}
