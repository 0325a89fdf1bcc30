/** The client-side check of frontend1/src/components/auth/PublisherSignupForm.js: a chain of
    guards, each returning at the first failure with the message it reports through the error
    state, and the payload the form submits once the chain passes. */
module PublisherSignupForm {
  import opened Common
  import Validators

  /** The form's state: seven strings, all empty at first. */
  datatype SignupForm = SignupForm(
    email: string,
    password: string,
    confirmPassword: string,
    publisherName: string,
    officeContact: string,
    publicationAddress: string,
    zipcode: string)

  /** The guards in the order `validateForm` runs them: whether each fails, and its message.
      Lengths are the string's length as the form holds it (the name is not trimmed). */
  function Guards(f: SignupForm): (gs: seq<(bool, string)>)
    ensures |gs| == 9
  {
    [ (f.email == "", "Email is required"),
      (f.password == "", "Password is required"),
      (f.confirmPassword == "", "Please confirm your password"),
      (f.password != f.confirmPassword, "Passwords do not match"),
      (|f.password| < 8, "Password must be at least 8 characters long"),
      (f.publisherName == "" || |f.publisherName| < 2, "Publisher name must be at least 2 characters long"),
      (f.officeContact == "", "Office contact is required"),
      (f.publicationAddress == "", "Publication address is required"),
      (f.zipcode == "" || !Validators.ZipcodeShape(f.zipcode), "Please enter a valid zipcode (5-6 digits)") ]
  }

  /** The message of the first failing guard, if any. */
  function FirstFailing(gs: seq<(bool, string)>): (m: Option<string>)
    ensures m.None? <==> forall i :: 0 <= i < |gs| ==> !gs[i].0
    ensures m.Some? ==> exists i :: 0 <= i < |gs| && gs[i] == (true, m.value) && forall j :: 0 <= j < i ==> !gs[j].0
  {
    if gs == [] then None
    else if gs[0].0 then Some(gs[0].1)
    else
      var rest := FirstFailing(gs[1..]);
      assert forall i :: 1 <= i < |gs| ==> gs[i] == gs[1..][i - 1];
      if rest.Some? then
        var k :| 0 <= k < |gs[1..]| && gs[1..][k] == (true, rest.value) && forall j :: 0 <= j < k ==> !gs[1..][j].0;
        assert gs[k + 1] == (true, rest.value);
        rest
      else rest
  }

  /** `validateForm`: the message it reports, or `None` when it returns true (the error state is
      then left as it was). */
  function ValidateForm(f: SignupForm): (m: Option<string>)
  {
    if f.email == "" then Some("Email is required")
    else if f.password == "" then Some("Password is required")
    else if f.confirmPassword == "" then Some("Please confirm your password")
    else if f.password != f.confirmPassword then Some("Passwords do not match")
    else if |f.password| < 8 then Some("Password must be at least 8 characters long")
    else if f.publisherName == "" || |f.publisherName| < 2 then Some("Publisher name must be at least 2 characters long")
    else if f.officeContact == "" then Some("Office contact is required")
    else if f.publicationAddress == "" then Some("Publication address is required")
    else if f.zipcode == "" || !Validators.ZipcodeShape(f.zipcode) then Some("Please enter a valid zipcode (5-6 digits)")
    else None
  }

  /** A failing guard preceded only by passing ones is the one reported. */
  lemma {:induction false} FirstFailingAt(gs: seq<(bool, string)>, i: nat)
    requires i < |gs| && gs[i].0 && forall j :: 0 <= j < i ==> !gs[j].0
    ensures FirstFailing(gs) == Some(gs[i].1)
  {
    if i > 0 {
      assert forall j :: 0 <= j < i - 1 ==> gs[1..][j] == gs[j + 1];
      FirstFailingAt(gs[1..], i - 1);
    }
  }

  /** The chain reports exactly the first failing guard, in the fixed order. */
  lemma ReportsFirstFailure(f: SignupForm)
    ensures ValidateForm(f) == FirstFailing(Guards(f))
  {
    var gs := Guards(f);
    if f.email == "" { FirstFailingAt(gs, 0); }
    else if f.password == "" { FirstFailingAt(gs, 1); }
    else if f.confirmPassword == "" { FirstFailingAt(gs, 2); }
    else if f.password != f.confirmPassword { FirstFailingAt(gs, 3); }
    else if |f.password| < 8 { FirstFailingAt(gs, 4); }
    else if f.publisherName == "" || |f.publisherName| < 2 { FirstFailingAt(gs, 5); }
    else if f.officeContact == "" { FirstFailingAt(gs, 6); }
    else if f.publicationAddress == "" { FirstFailingAt(gs, 7); }
    else if f.zipcode == "" || !Validators.ZipcodeShape(f.zipcode) { FirstFailingAt(gs, 8); }
  }

  /** The form is accepted exactly when every guard passes: the fields are filled, the two
      passwords agree and have at least 8 characters, the name has at least 2, and the zipcode
      is 5 or 6 digits. */
  lemma AcceptedIffAllPass(f: SignupForm)
    ensures ValidateForm(f).None? <==>
              && f.email != "" && f.password == f.confirmPassword && |f.password| >= 8
              && |f.publisherName| >= 2 && f.officeContact != "" && f.publicationAddress != ""
              && Validators.ZipcodeShape(f.zipcode)
  {
  }

  /** Two different non-empty passwords are reported as a mismatch, even when both are too
      short: the mismatch guard comes first. */
  lemma MismatchBeforeShort(f: SignupForm)
    requires f.email != "" && f.password != "" && f.confirmPassword != ""
    requires f.password != f.confirmPassword
    ensures ValidateForm(f) == Some("Passwords do not match")
  {
  }

  /** The fields the form submits. */
  const PayloadKeys: set<string> :=
    {"email", "password", "confirmPassword", "publisherName", "publicationAddress", "officeContact", "zipcode"}

  /** `publisherData`: the seven form fields, under their own names. */
  function Payload(f: SignupForm): (p: map<string, string>)
    ensures p.Keys == PayloadKeys
  {
    map["email" := f.email, "password" := f.password, "confirmPassword" := f.confirmPassword,
        "publisherName" := f.publisherName, "publicationAddress" := f.publicationAddress,
        "officeContact" := f.officeContact, "zipcode" := f.zipcode]
  }

  /** Reading the fields back from the payload gives the form: nothing is lost or renamed. */
  function FromPayload(p: map<string, string>): SignupForm
    requires PayloadKeys <= p.Keys
  {
    SignupForm(p["email"], p["password"], p["confirmPassword"], p["publisherName"],
               p["officeContact"], p["publicationAddress"], p["zipcode"])
  }

  lemma PayloadRoundTrip(f: SignupForm)
    ensures FromPayload(Payload(f)) == f
  {
  }
}
