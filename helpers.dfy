/** The client utilities of frontend1/src/utils/helpers.js: the initials of a name, the generic
    form check, and the message shown for a failed request. */
module ClientHelpers {
  import opened Common
  import opened Text

  // ---------------------------------------------------------------- getInitials

  /** The number of non-empty words. */
  function NonEmptyCount(words: seq<string>): nat
  {
    if words == [] then 0 else (if words[0] == "" then 0 else 1) + NonEmptyCount(words[1..])
  }

  /** `words.map(word => word[0]).join('')`: an empty word maps to `undefined`, which `join`
      writes as nothing. */
  function FirstChars(words: seq<string>): (r: string)
    ensures |r| == NonEmptyCount(words)
  {
    if words == [] then "" else (if words[0] == "" then "" else [words[0][0]]) + FirstChars(words[1..])
  }

  lemma {:induction false} FirstCharsConcat(u: seq<string>, v: seq<string>)
    ensures FirstChars(u + v) == FirstChars(u) + FirstChars(v)
  {
    if u != [] {
      assert (u + v)[0] == u[0] && (u + v)[1..] == u[1..] + v;
      FirstCharsConcat(u[1..], v);
      var head := if u[0] == "" then "" else [u[0][0]];
      assert FirstChars(u + v) == head + FirstChars(u[1..] + v);
      assert FirstChars(u) == head + FirstChars(u[1..]);
    } else {
      assert u + v == v;
    }
  }

  /** `getInitials`: split on single spaces, the first character of each word, upper-cased
      (ASCII case mapping). One initial per non-empty word, none of them a lower-case letter. */
  function GetInitials(name: string): (r: string)
    ensures |r| == NonEmptyCount(Split(name, ' '))
    ensures forall i :: 0 <= i < |r| ==> !IsLower(r[i])
  {
    ToUpper(FirstChars(Split(name, ' ')))
  }

  lemma ToUpperConcat(x: string, y: string)
    ensures ToUpper(x + y) == ToUpper(x) + ToUpper(y)
  {
    var l, r := ToUpper(x + y), ToUpper(x) + ToUpper(y);
    assert |l| == |r|;
    forall i | 0 <= i < |l| ensures l[i] == r[i] {
      if i < |x| { assert (x + y)[i] == x[i]; } else { assert (x + y)[i] == y[i - |x|]; }
    }
  }

  /** The initials of two space-separated parts are the initials of each part in turn; extra
      spaces add nothing. */
  lemma InitialsConcat(a: string, b: string)
    ensures GetInitials(a + " " + b) == GetInitials(a) + GetInitials(b)
  {
    SplitConcat(a, b, ' ');
    assert a + " " + b == a + [' '] + b;
    FirstCharsConcat(Split(a, ' '), Split(b, ' '));
    ToUpperConcat(FirstChars(Split(a, ' ')), FirstChars(Split(b, ' ')));
  }

  /** A single word gives its first character, upper-cased. */
  lemma InitialOfWord(w: string)
    requires w != "" && ' ' !in w
    ensures GetInitials(w) == [UpperChar(w[0])]
  {
    SplitNoSeparator(w, ' ');
    assert FirstChars([w]) == [w[0]];
  }

  // ---------------------------------------------------------------- validateForm

  /** `data[key]` on a plain object: `undefined` when the key is absent. */
  function Field(data: map<string, JsValue>, key: string): JsValue
  {
    if key in data then data[key] else Undefined
  }

  /** `!v && v !== 0`: falsy, but not the number zero. */
  predicate Missing(v: JsValue)
  {
    !Truthy(v) && v != Num(0)
  }

  /** `String(v)`, which `RegExp.prototype.test` applies to its argument. */
  function JsString(v: JsValue): string
  {
    match v
    case Undefined => "undefined"
    case Null => "null"
    case Bool(b) => if b then "true" else "false"
    case Num(n) => if n < 0 then "-" + NatToString(-n) else NatToString(n)
    case Str(s) => s
  }

  /** The match of `/\S+@\S+\.\S+/` with its `@` at `p` and its `.` at `q`: a non-space
      character before the `@`, only non-space characters between the two, and a non-space
      character after the `.`. */
  predicate EmailAt(s: string, p: int, q: int)
  {
    && 0 < p && p + 1 < q && q + 1 < |s|
    && s[p] == '@' && s[q] == '.'
    && !IsWhitespace(s[p - 1]) && !IsWhitespace(s[q + 1])
    && forall k :: p < k < q ==> !IsWhitespace(s[k])
  }

  /** `/\S+@\S+\.\S+/.test(s)`: the pattern is not anchored, so it matches somewhere in `s`. */
  predicate EmailLike(s: string)
  {
    exists p, q :: 0 <= p < |s| && 0 <= q < |s| && EmailAt(s, p, q)
  }

  /** `[\d\s-]`. */
  predicate PhoneChar(c: char)
  {
    IsDigit(c) || IsWhitespace(c) || c == '-'
  }

  /** `/^\+?[\d\s-]{10,}$/.test(s)`: an optional `+`, then at least ten digits, spaces or hyphens. */
  predicate PhoneLike(s: string)
  {
    var body := if s != [] && s[0] == '+' then s[1..] else s;
    |body| >= 10 && forall i :: 0 <= i < |body| ==> PhoneChar(body[i])
  }

  predicate BadEmail(data: map<string, JsValue>)
  {
    Truthy(Field(data, "email")) && !EmailLike(JsString(Field(data, "email")))
  }

  predicate BadPhone(data: map<string, JsValue>)
  {
    Truthy(Field(data, "phone")) && !PhoneLike(JsString(Field(data, "phone")))
  }

  const RequiredMessage: string := "This field is required"

  /** The listed fields that are missing, each with the required message. */
  function RequiredErrors(data: map<string, JsValue>, fields: seq<string>): map<string, string>
  {
    map f | f in fields && Missing(Field(data, f)) :: RequiredMessage
  }

  /** The errors object `validateForm` returns: the required messages, then the email and the
      phone messages, each overwriting what the key held. */
  function FormErrors(data: map<string, JsValue>, fields: seq<string>): map<string, string>
  {
    var required := RequiredErrors(data, fields);
    var withEmail := if BadEmail(data) then required["email" := "Invalid email address"] else required;
    if BadPhone(data) then withEmail["phone" := "Invalid phone number"] else withEmail
  }

  /** A key is flagged exactly when it is a listed field that is missing, or the email or phone
      that is present and malformed; the format messages win over the required one. */
  lemma FormErrorsMeaning(data: map<string, JsValue>, fields: seq<string>, k: string)
    ensures k in FormErrors(data, fields) <==>
              (k in fields && Missing(Field(data, k))) || (k == "email" && BadEmail(data)) || (k == "phone" && BadPhone(data))
    ensures k in FormErrors(data, fields) ==>
              FormErrors(data, fields)[k] ==
                if k == "phone" && BadPhone(data) then "Invalid phone number"
                else if k == "email" && BadEmail(data) then "Invalid email address"
                else RequiredMessage
  {
  }

  /** The form is valid exactly when no listed field is missing and neither the email nor the
      phone is malformed; a field holding the number 0 counts as filled. */
  lemma ValidIffNothingWrong(data: map<string, JsValue>, fields: seq<string>)
    ensures FormErrors(data, fields) == map[] <==>
              (forall f :: f in fields ==> !Missing(Field(data, f))) && !BadEmail(data) && !BadPhone(data)
  {
    if FormErrors(data, fields) != map[] {
      var k :| k in FormErrors(data, fields);
      FormErrorsMeaning(data, fields, k);
    } else {
      forall f | f in fields ensures !Missing(Field(data, f)) {
        FormErrorsMeaning(data, fields, f);
      }
      FormErrorsMeaning(data, fields, "email");
      FormErrorsMeaning(data, fields, "phone");
    }
  }

  /** The result of `validateForm`. */
  datatype FormCheck = FormCheck(isValid: bool, errors: map<string, string>)

  /** `validateForm`: the `forEach` over the listed fields, then the email and phone checks. */
  method ValidateForm(data: map<string, JsValue>, fields: seq<string>) returns (r: FormCheck)
    ensures r.errors == FormErrors(data, fields)
    ensures r.isValid <==> r.errors == map[]
  {
    var errors: map<string, string> := map[];
    var i := 0;
    while i < |fields|
      invariant 0 <= i <= |fields|
      invariant errors == RequiredErrors(data, fields[..i])
    {
      assert fields[..i + 1] == fields[..i] + [fields[i]];
      if Missing(Field(data, fields[i])) {
        errors := errors[fields[i] := RequiredMessage];
      }
      i := i + 1;
    }
    assert fields[..i] == fields;
    var email := Field(data, "email");
    if Truthy(email) && !EmailLike(JsString(email)) {
      errors := errors["email" := "Invalid email address"];
    }
    var phone := Field(data, "phone");
    if Truthy(phone) && !PhoneLike(JsString(phone)) {
      errors := errors["phone" := "Invalid phone number"];
    }
    r := FormCheck(|errors.Keys| == 0, errors);
  }

  // ---------------------------------------------------------------- getErrorMessage

  /** `error.response`: its `data`, absent when null or undefined. */
  datatype Response = Response(data: Option<map<string, JsValue>>)

  /** The thrown request error: its optional response and its own `message`. */
  datatype RequestError = RequestError(response: Option<Response>, message: JsValue)

  /** `error.response?.data?.message`. */
  function ServerMessage(e: RequestError): JsValue
  {
    if e.response.Some? && e.response.value.data.Some? then Field(e.response.value.data.value, "message")
    else Undefined
  }

  const DefaultMessage: string := "Something went wrong"

  /** `getErrorMessage`: the server's message, else the error's own, else the default. The
      result is always truthy, so there is always something to show. */
  function GetErrorMessage(e: RequestError): (m: JsValue)
    ensures Truthy(m)
    ensures m == ServerMessage(e) || m == e.message || m == Str(DefaultMessage)
  {
    if Truthy(ServerMessage(e)) then ServerMessage(e)
    else if Truthy(e.message) then e.message
    else Str(DefaultMessage)
  }

  /** A truthy server message always wins; the error's own message is shown only when the
      server sent none; the default only when neither is truthy. */
  lemma MessagePriority(e: RequestError)
    ensures Truthy(ServerMessage(e)) ==> GetErrorMessage(e) == ServerMessage(e)
    ensures !Truthy(ServerMessage(e)) ==> GetErrorMessage(e) == (if Truthy(e.message) then e.message else Str(DefaultMessage))
  {
  }
}
