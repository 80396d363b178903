/** The create-bounty page: its form, the ordered checks `handleSubmit` runs before anything is
    sent, and the `error` / `isSubmitting` bookkeeping around the call to the bounty contract.
    The connected account, the presence of the Keychain extension and the contract's answer
    are parameters. */
module CreateBountyPage {
  import opened Text
  import GithubUrl
  import Wallet

  // ---------------------------------------------------------------------------
  // The form

  datatype FormData = FormData(title: string, description: string, amount: string, currency: string,
                               deadline: string, githubLink: string)

  const InitialForm: FormData := FormData("", "", "", "HIVE", "", "")

  datatype Field = Title | Description | Amount | Currency | Deadline | GithubLink

  /** The value of one field of the form. */
  function FieldOf(f: FormData, field: Field): string {
    match field
    case Title => f.title
    case Description => f.description
    case Amount => f.amount
    case Currency => f.currency
    case Deadline => f.deadline
    case GithubLink => f.githubLink
  }

  /** `setFormData({ ...formData, <field>: value })`, as each input's change handler does: the
      edited field takes the new value and every other field keeps its own. */
  function WithField(f: FormData, field: Field, value: string): (g: FormData)
    ensures FieldOf(g, field) == value
    ensures forall o :: o != field ==> FieldOf(g, o) == FieldOf(f, o)
  {
    match field
    case Title => f.(title := value)
    case Description => f.(description := value)
    case Amount => f.(amount := value)
    case Currency => f.(currency := value)
    case Deadline => f.(deadline := value)
    case GithubLink => f.(githubLink := value)
  }

  /** A form is determined by its six field values. */
  lemma FieldsDetermineForm(f: FormData, g: FormData)
    requires forall o :: FieldOf(f, o) == FieldOf(g, o)
    ensures f == g
  {
    assert FieldOf(f, Title) == FieldOf(g, Title) && FieldOf(f, Description) == FieldOf(g, Description);
    assert FieldOf(f, Amount) == FieldOf(g, Amount) && FieldOf(f, Currency) == FieldOf(g, Currency);
    assert FieldOf(f, Deadline) == FieldOf(g, Deadline) && FieldOf(f, GithubLink) == FieldOf(g, GithubLink);
  }

  /** Editing one field leaves the other five as they were, and the last edit of a field wins. */
  lemma EditsAreIndependent(f: FormData, field: Field, v: string, other: Field, w: string)
    ensures field != other ==> WithField(WithField(f, field, v), other, w) == WithField(WithField(f, other, w), field, v)
    ensures WithField(WithField(f, field, v), field, w) == WithField(f, field, w)
  {
  }

  // ---------------------------------------------------------------------------
  // `isNaN(parseFloat(amount))`

  /** White space and line terminators, which `parseFloat` skips at the start. */
  predicate IsJsSpace(c: char) {
    c == '\t' || c == '\U{000B}' || c == '\U{000C}' || c == ' ' || c == '\U{00A0}' || c == '\U{FEFF}'
    || c == '\U{1680}' || ('\U{2000}' <= c <= '\U{200A}') || c == '\U{202F}' || c == '\U{205F}' || c == '\U{3000}'
    || c == '\n' || c == '\r' || c == '\U{2028}' || c == '\U{2029}'
  }

  /** The text with its leading white space removed: what is left is a suffix that does not
      start with white space (`TrimStartRemovesOnlySpace`: and only white space went). */
  function TrimStart(s: string): (t: string)
    ensures |t| <= |s| && t == s[|s| - |t|..]
    ensures t != [] ==> !IsJsSpace(t[0])
    decreases |s|
  {
    if s != [] && IsJsSpace(s[0]) then TrimStart(s[1..]) else s
  }

  /** The start of a decimal literal: `Infinity`, a digit, or a point followed by a digit. */
  predicate StartsNumber(u: string) {
    (|u| >= 8 && u[..8] == "Infinity") || (|u| > 0 && IsDigit(u[0])) || (|u| > 1 && u[0] == '.' && IsDigit(u[1]))
  }

  /** `parseFloat(s)` is a number (not `NaN`): after white space and an optional sign, the text
      starts a decimal literal; whatever follows that prefix is ignored. */
  predicate HasNumericPrefix(s: string) {
    StartsNumber(SkipSign(TrimStart(s)))
  }

  /** The text after its leading sign, if it has one. */
  function SkipSign(t: string): string {
    if t != [] && (t[0] == '+' || t[0] == '-') then t[1..] else t
  }

  /** Everything `TrimStart` removes is white space. */
  lemma {:induction false} TrimStartRemovesOnlySpace(s: string)
    ensures forall k :: 0 <= k < |s| - |TrimStart(s)| ==> IsJsSpace(s[k])
    decreases |s|
  {
    if s != [] && IsJsSpace(s[0]) {
      TrimStartRemovesOnlySpace(s[1..]);
      assert TrimStart(s) == TrimStart(s[1..]);
      forall k | 0 < k < |s| - |TrimStart(s)| ensures IsJsSpace(s[k]) {
        assert s[k] == s[1..][k - 1];
      }
    }
  }

  lemma {:induction false} TrimStartAppend(s: string, x: string)
    requires TrimStart(s) != []
    ensures TrimStart(s + x) == TrimStart(s) + x
    decreases |s|
  {
    var sx := s + x;
    assert sx[0] == s[0];
    if IsJsSpace(s[0]) {
      assert sx[1..] == s[1..] + x;
      assert TrimStart(sx) == TrimStart(sx[1..]);
      assert TrimStart(s) == TrimStart(s[1..]);
      TrimStartAppend(s[1..], x);
    } else {
      assert TrimStart(sx) == sx;
      assert TrimStart(s) == s;
    }
  }

  lemma {:induction false} TrimStartSkipsSpace(w: string, s: string)
    requires forall i :: 0 <= i < |w| ==> IsJsSpace(w[i])
    ensures TrimStart(w + s) == TrimStart(s)
    decreases |w|
  {
    if w != [] {
      var ws := w + s;
      assert ws[0] == w[0];
      assert IsJsSpace(ws[0]);
      assert ws[1..] == w[1..] + s;
      assert TrimStart(ws) == TrimStart(w[1..] + s);
      forall i | 0 <= i < |w[1..]| ensures IsJsSpace(w[1..][i]) {
        assert w[1..][i] == w[i + 1];
      }
      TrimStartSkipsSpace(w[1..], s);
    } else {
      assert w + s == s;
    }
  }

  /** Text after a number does not make it `NaN`: `"12abc"` is accepted like `"12"`. */
  lemma TrailingTextKeepsNumber(s: string, x: string)
    requires HasNumericPrefix(s)
    ensures HasNumericPrefix(s + x)
  {
    TrimStartAppend(s, x);
    SkipSignAppend(TrimStart(s), x);
    StartsNumberAppend(SkipSign(TrimStart(s)), x);
  }

  lemma SkipSignAppend(t: string, x: string)
    requires t != []
    ensures SkipSign(t + x) == SkipSign(t) + x
  {
    assert (t + x)[0] == t[0];
    if t[0] == '+' || t[0] == '-' {
      assert (t + x)[1..] == t[1..] + x;
    }
  }

  lemma StartsNumberAppend(u: string, x: string)
    requires StartsNumber(u)
    ensures StartsNumber(u + x)
  {
    if |u| >= 8 && u[..8] == "Infinity" {
      assert (u + x)[..8] == u[..8];
    } else if |u| > 0 && IsDigit(u[0]) {
      assert (u + x)[0] == u[0];
    } else {
      assert (u + x)[0] == u[0] && (u + x)[1] == u[1];
    }
  }

  /** Leading white space makes no difference. */
  lemma LeadingSpaceIgnored(w: string, s: string)
    requires forall i :: 0 <= i < |w| ==> IsJsSpace(w[i])
    ensures HasNumericPrefix(w + s) == HasNumericPrefix(s)
  {
    TrimStartSkipsSpace(w, s);
  }

  /** Text with no digit and no `Infinity` in it is `NaN`. */
  lemma NoDigitIsNaN(s: string)
    requires forall i :: 0 <= i < |s| ==> !IsDigit(s[i])
    requires !Contains(s, "Infinity")
    ensures !HasNumericPrefix(s)
  {
    var t := TrimStart(s);
    var off := |s| - |t|;
    if t != [] && (t[0] == '+' || t[0] == '-') {
      assert SkipSign(t) == t[1..] == s[off + 1..];
      NoNumberInSuffix(s, off + 1);
    } else {
      NoNumberInSuffix(s, off);
    }
  }

  lemma NoNumberInSuffix(s: string, start: nat)
    requires start <= |s|
    requires forall i :: 0 <= i < |s| ==> !IsDigit(s[i])
    requires !Contains(s, "Infinity")
    ensures !StartsNumber(s[start..])
  {
    var u := s[start..];
    if |u| >= 8 {
      assert s[start..start + 8] == u[..8];
      assert !OccursAt("Infinity", s, start);
    }
    if |u| > 0 {
      assert u[0] == s[start];
    }
    if |u| > 1 {
      assert u[1] == s[start + 1];
    }
  }

  /** A text starting with a digit is a number. */
  lemma DigitStartIsNumber(s: string)
    requires s != [] && IsDigit(s[0])
    ensures HasNumericPrefix(s)
  {
    assert !IsJsSpace(s[0]);
    assert TrimStart(s) == s;
    assert SkipSign(s) == s;
  }

  // ---------------------------------------------------------------------------
  // The checks before submission

  const NoWallet: string := "Please connect your Hive wallet first"
  const NoKeychain: string := "Hive Keychain extension not found"
  const BadLink: string := "Please enter a valid GitHub issue or pull request URL"
  const BadAmount: string := "Please enter a valid reward amount"
  const SubmitFailed: string := "Failed to create bounty"
  const HomeRoute: string := "/"

  /** `formData.amount === '' || isNaN(parseFloat(formData.amount))` is false. */
  predicate AmountAccepted(amount: string) {
    amount != [] && HasNumericPrefix(amount)
  }

  /** The message of the first check that fails, in the order the handler runs them. */
  function Validate(account: Option<Wallet.HiveAccount>, keychain: bool, form: FormData): Option<string> {
    if account.None? then Some(NoWallet)
    else if !keychain then Some(NoKeychain)
    else if !GithubUrl.ValidateGithubUrl(form.githubLink) then Some(BadLink)
    else if !AmountAccepted(form.amount) then Some(BadAmount)
    else None
  }

  /** Each message appears exactly when the checks before it pass and its own fails; no message
      appears exactly when all four pass. */
  lemma ValidateOrder(account: Option<Wallet.HiveAccount>, keychain: bool, form: FormData)
    ensures Validate(account, keychain, form) == Some(NoWallet) <==> account.None?
    ensures Validate(account, keychain, form) == Some(NoKeychain) <==> account.Some? && !keychain
    ensures Validate(account, keychain, form) == Some(BadLink)
        <==> account.Some? && keychain && !GithubUrl.ValidateGithubUrl(form.githubLink)
    ensures Validate(account, keychain, form) == Some(BadAmount)
        <==> account.Some? && keychain && GithubUrl.ValidateGithubUrl(form.githubLink) && !AmountAccepted(form.amount)
    ensures Validate(account, keychain, form).None?
        <==> account.Some? && keychain && GithubUrl.ValidateGithubUrl(form.githubLink) && AmountAccepted(form.amount)
  {
    assert NoWallet != NoKeychain && NoWallet != BadLink && NoWallet != BadAmount;
    assert NoKeychain != BadLink && NoKeychain != BadAmount && BadLink != BadAmount;
  }

  /** A failing check decides the outcome alone: later checks are not looked at, so changing
      what they would inspect changes nothing. */
  lemma ValidateStopsAtFirstFailure(account: Option<Wallet.HiveAccount>, keychain: bool, form: FormData,
                                    keychain': bool, form': FormData)
    ensures account.None? ==> Validate(account, keychain, form) == Validate(account, keychain', form')
    ensures account.Some? && !keychain ==> Validate(account, keychain, form) == Validate(account, keychain, form')
    ensures account.Some? && keychain && !GithubUrl.ValidateGithubUrl(form.githubLink) && form'.githubLink == form.githubLink
        ==> Validate(account, keychain, form) == Validate(account, keychain, form')
  {
  }

  /** An empty amount, or one `parseFloat` reads as `NaN`, is refused once the earlier checks pass. */
  lemma BadAmountRejected(account: Wallet.HiveAccount, form: FormData)
    requires GithubUrl.ValidateGithubUrl(form.githubLink)
    requires form.amount == [] || !HasNumericPrefix(form.amount)
    ensures Validate(Some(account), true, form) == Some(BadAmount)
  {
  }

  /** A form that passes carries a link of the accepted shape and a numeric amount. */
  lemma AcceptedFormShape(account: Option<Wallet.HiveAccount>, keychain: bool, form: FormData)
    requires Validate(account, keychain, form).None?
    ensures account.Some? && keychain
    ensures GithubUrl.WellFormed(GithubUrl.ParseGithubUrl(form.githubLink).value)
    ensures GithubUrl.Render(GithubUrl.ParseGithubUrl(form.githubLink).value) == form.githubLink
    ensures form.amount != [] && HasNumericPrefix(form.amount)
  {
    GithubUrl.ParseSound(form.githubLink);
  }

  // ---------------------------------------------------------------------------
  // Submission

  /** What is sent to the bounty contract; `amount` is the text whose `parseFloat` value is the
      prize pool. */
  datatype ContractRequest = ContractRequest(creator: string, title: string, description: string,
                                             githubLink: string, amount: string)

  function RequestFor(account: Wallet.HiveAccount, form: FormData): ContractRequest {
    ContractRequest(account.name, form.title, form.description, form.githubLink, form.amount)
  }

  /** How `bountyContract.createBounty(...)` ended: with a response, or by throwing. */
  datatype ContractOutcome =
    | Responded(success: bool, message: Option<string>)
    | Threw(message: Option<string>)

  /** The error a finished submission leaves: none after success, the response's message after
      a reported failure, and the thrown message or the default after an exception. */
  function SubmitError(o: ContractOutcome): (r: Option<string>)
    ensures o.Responded? && !o.success ==> r == o.message
    ensures o.Threw? ==> r.Some? && r.value != []
    ensures o.Threw? && !Truthy(o.message) ==> r == Some(SubmitFailed)
    ensures o.Threw? && Truthy(o.message) ==> r == o.message
    ensures o.Responded? && o.success ==> r.None?
  {
    match o
    case Responded(success, message) => if success then None else message
    case Threw(message) => Some(OrElse(message, SubmitFailed))
  }

  class CreateBountyForm {
    var form: FormData
    var isSubmitting: bool
    var error: Option<string>
    /** Where the page navigated to, if anywhere. */
    var location: Option<string>

    constructor()
      ensures form == InitialForm && !isSubmitting && error.None? && location.None?
    {
      form := InitialForm;
      isSubmitting := false;
      error := None;
      location := None;
    }

    /** An input's change handler. */
    method Edit(field: Field, value: string)
      modifies this
      ensures form == WithField(old(form), field, value)
      ensures isSubmitting == old(isSubmitting) && error == old(error) && location == old(location)
    {
      form := WithField(form, field, value);
    }

    /** `handleSubmit` up to its `await`: clears the error, runs the checks in order and stops
        at the first that fails with its message; only when all pass is the flag raised and a
        request issued. */
    method BeginSubmit(account: Option<Wallet.HiveAccount>, keychain: bool) returns (request: Option<ContractRequest>)
      modifies this
      ensures error == Validate(account, keychain, old(form))
      ensures request.Some? <==> error.None?
      ensures request.Some? ==> account.Some? && request.value == RequestFor(account.value, old(form)) && isSubmitting
      ensures request.None? ==> isSubmitting == old(isSubmitting)
      ensures form == old(form) && location == old(location)
    {
      error := None;
      if account.None? {
        error := Some(NoWallet);
        return None;
      }
      if !keychain {
        error := Some(NoKeychain);
        return None;
      }
      if !GithubUrl.ValidateGithubUrl(form.githubLink) {
        error := Some(BadLink);
        return None;
      }
      if form.amount == [] || !HasNumericPrefix(form.amount) {
        error := Some(BadAmount);
        return None;
      }
      isSubmitting := true;
      request := Some(RequestFor(account.value, form));
    }

    /** `handleSubmit` after its `await`, including the `finally`: the flag is lowered on every
        path; success navigates home, a failure records its error. */
    method CompleteSubmit(outcome: ContractOutcome)
      modifies this
      ensures !isSubmitting
      ensures outcome == Responded(true, outcome.message) ==> error == old(error) && location == Some(HomeRoute)
      ensures outcome != Responded(true, outcome.message) ==> error == SubmitError(outcome) && location == old(location)
      ensures form == old(form)
    {
      match outcome {
        case Responded(success, message) =>
          if success {
            location := Some(HomeRoute);
          } else {
            error := message;
          }
        case Threw(message) =>
          error := Some(OrElse(message, SubmitFailed));
      }
      isSubmitting := false;
    }

    /** The whole handler for the given account, extension and contract answer. */
    method HandleSubmit(account: Option<Wallet.HiveAccount>, keychain: bool, outcome: ContractOutcome)
      returns (request: Option<ContractRequest>)
      modifies this
      ensures request.Some? <==> Validate(account, keychain, old(form)).None?
      ensures request.Some? ==> request.value == RequestFor(account.value, old(form))
      ensures request.None? ==> error == Validate(account, keychain, old(form))
                                && isSubmitting == old(isSubmitting) && location == old(location)
      ensures request.Some? ==> !isSubmitting && error == SubmitError(outcome)
      ensures request.Some? ==> location == (if outcome.Responded? && outcome.success then Some(HomeRoute) else old(location))
      ensures form == old(form)
    {
      request := BeginSubmit(account, keychain);
      if request.Some? {
        CompleteSubmit(outcome);
      }
    }
  }
}
