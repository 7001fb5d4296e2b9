/** The consent form (components/GiveConsentForm.tsx): the checkbox toggle
    over the ordered list of selected options, the enabling rule of the
    submit button, and the submission, which POSTs the form's fields to the
    collection endpoint and then hands control back through `onSuccess`. */
module ConsentForm {
  import opened Common
  import opened ConsentTypes
  import opened ConsentsRoute

  /** The three checkboxes the form renders. */
  const ConsentOptions: seq<string> :=
    ["Receive newsletter", "Be shown targeted ads", "Contribute to anonymous visit statistics"]

  /** Each option occurs at most once. */
  ghost predicate Distinct(s: seq<string>) {
    forall y :: multiset(s)[y] <= 1
  }

  /** `prev.filter((c) => c !== option)`: every occurrence of `option` goes,
      every other entry stays. */
  function Deselect(selected: seq<string>, option: string): (r: seq<string>)
    ensures option !in r
    ensures forall y :: y != option ==> multiset(r)[y] == multiset(selected)[y]
    ensures |r| <= |selected|
  {
    if selected == [] then []
    else
      assert selected == [selected[0]] + selected[1..];
      (if selected[0] == option then [] else [selected[0]]) + Deselect(selected[1..], option)
  }

  /** Filtering a concatenation filters each part and keeps them in order:
      the entries that stay keep their relative order. */
  lemma {:induction false} DeselectKeepsOrder(a: seq<string>, b: seq<string>, option: string)
    ensures Deselect(a + b, option) == Deselect(a, option) + Deselect(b, option)
  {
    if a == [] {
      assert a + b == b;
    } else {
      assert (a + b)[1..] == a[1..] + b;
      DeselectKeepsOrder(a[1..], b, option);
    }
  }

  /** Filtering out an option that is not there changes nothing. */
  lemma {:induction false} DeselectAbsent(selected: seq<string>, option: string)
    requires option !in selected
    ensures Deselect(selected, option) == selected
  {
    if selected != [] {
      DeselectAbsent(selected[1..], option);
    }
  }

  /** `handleCheckbox(option)`: a selected option is removed (every copy of
      it), an unselected one is appended at the end. */
  function Toggle(selected: seq<string>, option: string): (r: seq<string>)
    ensures option in r <==> option !in selected
    ensures forall y :: y != option ==> multiset(r)[y] == multiset(selected)[y]
    ensures option !in selected ==> r == selected + [option]
  {
    if option in selected then Deselect(selected, option) else selected + [option]
  }

  /** Toggling keeps a list without repeats free of repeats. */
  lemma ToggleKeepsDistinct(selected: seq<string>, option: string)
    requires Distinct(selected)
    ensures Distinct(Toggle(selected, option))
  {
    var r := Toggle(selected, option);
    forall y ensures multiset(r)[y] <= 1 {
      if y == option && option !in selected {
        assert multiset(r)[y] == multiset(selected)[y] + 1;
      }
    }
  }

  /** Checking and then unchecking an option that was not selected restores
      the list exactly. */
  lemma ToggleTwiceRestoresUnselected(selected: seq<string>, option: string)
    requires option !in selected
    ensures Toggle(Toggle(selected, option), option) == selected
  {
    DeselectKeepsOrder(selected, [option], option);
    DeselectAbsent(selected, option);
  }

  /** Unchecking and then checking an option restores the selection of a
      list without repeats, as a collection. */
  lemma ToggleTwiceRestoresSelection(selected: seq<string>, option: string)
    requires Distinct(selected)
    ensures multiset(Toggle(Toggle(selected, option), option)) == multiset(selected)
  {
    var r := Toggle(Toggle(selected, option), option);
    if option in selected {
      assert multiset(selected)[option] == 1;
      assert multiset(r)[option] == 1;
      assert forall y :: multiset(r)[y] == multiset(selected)[y];
    } else {
      ToggleTwiceRestoresUnselected(selected, option);
    }
  }

  /** In a list without repeats, the entry at position `i` occurs neither
      before nor after that position. */
  lemma DistinctEntryIsolated(selected: seq<string>, i: int)
    requires Distinct(selected)
    requires 0 <= i < |selected|
    ensures selected[i] !in selected[..i] && selected[i] !in selected[i + 1..]
  {
    var x := selected[i];
    assert selected == selected[..i] + [x] + selected[i + 1..];
    assert multiset(selected) == multiset(selected[..i]) + multiset{x} + multiset(selected[i + 1..]);
    assert multiset(selected)[x] <= 1;
  }

  /** ... but not its order: in a list without repeats, unchecking the
      option at position `i` and checking it again moves it from there to
      the end, so the list changes unless that option was already last. */
  lemma ToggleTwiceMayReorder(selected: seq<string>, i: int)
    requires Distinct(selected)
    requires 0 <= i < |selected|
    ensures Toggle(Toggle(selected, selected[i]), selected[i])
            == selected[..i] + selected[i + 1..] + [selected[i]]
    ensures i < |selected| - 1 ==> Toggle(Toggle(selected, selected[i]), selected[i]) != selected
  {
    var x := selected[i];
    var before, after := selected[..i], selected[i + 1..];
    DistinctEntryIsolated(selected, i);
    assert selected == (before + [x]) + after;
    DeselectKeepsOrder(before + [x], after, x);
    DeselectKeepsOrder(before, [x], x);
    DeselectAbsent(before, x);
    DeselectAbsent(after, x);
    assert Deselect([x], x) == [];
    assert Toggle(selected, x) == before + after;
    if i < |selected| - 1 {
      assert (before + after + [x])[i] == after[0];
    }
  }

  /** `isValid`: a name, an email and at least one consent are present.
      The email's form is not checked here. */
  function FormValid(name: string, email: string, selected: seq<string>): (r: bool)
    ensures r ==> ConsentsValid(selected)
  {
    name != "" && email != "" && |selected| > 0
  }

  /** `disabled={!isValid || submitting}`. */
  function SubmitDisabled(valid: bool, submitting: bool): (r: bool)
    ensures submitting ==> r
    ensures !valid ==> r
  {
    !valid || submitting
  }

  /** The button is enabled exactly when a name, an email and a consent
      are present and no submission is under way. */
  lemma SubmitEnabledIff(name: string, email: string, selected: seq<string>, submitting: bool)
    ensures !SubmitDisabled(FormValid(name, email, selected), submitting)
            <==> name != "" && email != "" && selected != [] && !submitting
  {
  }

  /** Every record the schema accepts can be submitted from the form,
      provided the email check refuses the empty string. */
  lemma SchemaValidIsFormValid(c: Consent, isEmail: string -> bool)
    requires !isEmail("")
    requires ValidConsent(c, isEmail)
    ensures FormValid(c.name, c.email, c.consentGivenFor)
  {
  }

  /** The converse fails: the form enables submission of a name the schema
      refuses, which the endpoint then answers with 400. */
  lemma FormValidSchemaMayRefuse(isEmail: string -> bool)
    ensures var c := Consent("Mr. Peanutbutter", "mrpb@dog.com", [ConsentOptions[1]]);
            FormValid(c.name, c.email, c.consentGivenFor) && !ValidConsent(c, isEmail)
  {
    PeanutbutterRefused();
  }

  class GiveConsentForm {
    var name: string
    var email: string
    var consents: seq<string>
    var submitting: bool

    /** The form mounts empty and idle. */
    constructor ()
      ensures name == "" && email == "" && consents == [] && !submitting
      ensures Disabled()
    {
      name, email, consents, submitting := "", "", [], false;
    }

    function IsValid(): bool
      reads this
    {
      FormValid(name, email, consents)
    }

    function Disabled(): bool
      reads this
    {
      SubmitDisabled(IsValid(), submitting)
    }

    method SetName(value: string)
      modifies this
      ensures name == value
      ensures email == old(email) && consents == old(consents) && submitting == old(submitting)
    {
      name := value;
    }

    method SetEmail(value: string)
      modifies this
      ensures email == value
      ensures name == old(name) && consents == old(consents) && submitting == old(submitting)
    {
      email := value;
    }

    method HandleCheckbox(option: string)
      modifies this
      ensures consents == Toggle(old(consents), option)
      ensures name == old(name) && email == old(email) && submitting == old(submitting)
    {
      consents := Toggle(consents, option);
    }

    /** `handleSubmit`: sets `submitting`, POSTs `{name, email,
        consentGivenFor}` with the options in selection order, clears
        `submitting` and calls `onSuccess` whatever the status. `delivered`
        is false when the request itself rejects (a network failure): then
        the exception escapes before `submitting` is cleared, so it stays
        set and `onSuccess` is not called. The fields are never cleared. */
    method HandleSubmit(api: ConsentsEndpoint, delivered: bool)
      returns (sent: Consent, response: Option<PostResponse>, onSuccessCalled: bool, ghost disabledWhileAwaiting: bool)
      modifies this, api
      ensures name == old(name) && email == old(email) && consents == old(consents)
      ensures sent == Consent(name, email, consents)
      ensures disabledWhileAwaiting
      ensures delivered ==>
                && !submitting && onSuccessCalled && response.Some?
                && (response.value.Created? <==> ValidConsent(sent, api.isEmail))
                && api.consents == if response.value.Created? then old(api.consents) + [sent] else old(api.consents)
      ensures !delivered ==>
                && submitting && !onSuccessCalled && response == None
                && api.consents == old(api.consents)
    {
      submitting := true;
      sent := Consent(name, email, consents);
      disabledWhileAwaiting := Disabled();
      if !delivered {
        return sent, None, false, disabledWhileAwaiting;
      }
      var r := api.Post(sent);
      response := Some(r);
      submitting := false;
      onSuccessCalled := true;
    }
  }
}
