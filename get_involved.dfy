/** The Get Involved page: the volunteer, host and newsletter forms. Each
    submit validates its form, posts it to a form relay and, on the relay's
    answer, clears the form or keeps it. */
module GetInvolved {
  import opened Text

  // ---------------------------------------------------------------------------
  // The email pattern /^[^\s@]+@[^\s@]+\.[^\s@]+$/
  // ---------------------------------------------------------------------------

  /** A character of the class `[^\s@]`. */
  predicate EmailChar(c: char)
  {
    !IsWhitespace(c) && c != '@'
  }

  /** A match of `[^\s@]+`. */
  predicate EmailRun(s: string)
  {
    |s| >= 1 && forall k :: 0 <= k < |s| ==> EmailChar(s[k])
  }

  /** `s` splits at the `@` at index `at` and the `.` at index `dot` into three
      runs of `[^\s@]+`. */
  predicate EmailSplit(s: string, at: int, dot: int)
  {
    && 0 <= at < dot < |s|
    && s[at] == '@' && s[dot] == '.'
    && EmailRun(s[..at]) && EmailRun(s[at + 1..dot]) && EmailRun(s[dot + 1..])
  }

  /** `emailRegex.test(s)`: the whole string is in the language of the pattern. */
  predicate IsValidEmail(s: string)
  {
    exists at, dot | 0 <= at < |s| && 0 <= dot < |s| :: EmailSplit(s, at, dot)
  }

  predicate NoWhitespace(s: string)
  {
    forall k :: 0 <= k < |s| ==> !IsWhitespace(s[k])
  }

  /** A `.` inside the domain with a character on each side of it. */
  predicate DotInDomain(s: string, at: int)
  {
    exists j | 0 <= j < |s| :: at + 1 < j < |s| - 1 && s[j] == '.'
  }

  /** What the pattern accepts, told plainly: no whitespace, exactly one `@`, a
      non-empty local part, and a `.` in the domain with a character on each side. */
  lemma EmailCharacterisation(s: string)
    ensures IsValidEmail(s) <==>
      && NoWhitespace(s)
      && Count(s, '@') == 1
      && IndexOf(s, '@') > 0
      && DotInDomain(s, IndexOf(s, '@'))
  {
    if IsValidEmail(s) {
      var at, dot :| 0 <= at < |s| && 0 <= dot < |s| && EmailSplit(s, at, dot);
      SplitIsShaped(s, at, dot);
    }
    if NoWhitespace(s) && Count(s, '@') == 1 && IndexOf(s, '@') > 0 && DotInDomain(s, IndexOf(s, '@')) {
      var at := IndexOf(s, '@');
      var dot :| 0 <= dot < |s| && at + 1 < dot < |s| - 1 && s[dot] == '.';
      ShapedIsSplit(s, at, dot);
    }
  }

  lemma SplitIsShaped(s: string, at: int, dot: int)
    requires EmailSplit(s, at, dot)
    ensures NoWhitespace(s) && Count(s, '@') == 1 && IndexOf(s, '@') == at
    ensures at > 0 && at + 1 < dot < |s| - 1
  {
    SplitHasNoWhitespace(s, at, dot);
    SplitHasOneAt(s, at, dot);
  }

  lemma SplitHasNoWhitespace(s: string, at: int, dot: int)
    requires EmailSplit(s, at, dot)
    ensures NoWhitespace(s)
  {
    forall k | 0 <= k < |s| ensures !IsWhitespace(s[k]) {
      if k < at {
        assert s[k] == s[..at][k];
      } else if at < k < dot {
        assert s[k] == s[at + 1..dot][k - at - 1];
      } else if dot < k {
        assert s[k] == s[dot + 1..][k - dot - 1];
      }
    }
  }

  lemma SplitHasOneAt(s: string, at: int, dot: int)
    requires EmailSplit(s, at, dot)
    ensures Count(s, '@') == 1
  {
    var local, domain := s[..at], s[at + 1..];
    assert s == local + ['@'] + domain;
    CountZero(local, '@');
    var mid, top := s[at + 1..dot], s[dot + 1..];
    assert domain == mid + ['.'] + top;
    forall k | 0 <= k < |domain| ensures domain[k] != '@' {
      if k < |mid| {
        assert domain[k] == mid[k];
      } else if k > |mid| {
        assert domain[k] == top[k - |mid| - 1];
      }
    }
    CountZero(domain, '@');
    CountConcat(local + ['@'], domain, '@');
    CountConcat(local, ['@'], '@');
  }

  lemma ShapedIsSplit(s: string, at: int, dot: int)
    requires NoWhitespace(s) && Count(s, '@') == 1
    requires at == IndexOf(s, '@') && 0 < at
    requires at + 1 < dot < |s| - 1 && s[dot] == '.'
    ensures EmailSplit(s, at, dot)
  {
    OnlyOneAt(s);
    RunOf(s, 0, at);
    RunOf(s, at + 1, dot);
    RunOf(s, dot + 1, |s|);
  }

  /** With exactly one `@`, none follows the first. */
  lemma OnlyOneAt(s: string)
    requires Count(s, '@') == 1
    ensures IndexOf(s, '@') < |s|
    ensures forall k :: IndexOf(s, '@') < k < |s| ==> s[k] != '@'
  {
    var at := IndexOf(s, '@');
    CountZero(s, '@');
    var local, domain := s[..at], s[at + 1..];
    assert s == local + ([s[at]] + domain);
    CountZero(local, '@');
    CountConcat(local, [s[at]] + domain, '@');
    CountConcat([s[at]], domain, '@');
    CountZero(domain, '@');
    forall k | at < k < |s| ensures s[k] != '@' {
      assert s[k] == domain[k - at - 1];
    }
  }

  /** A non-empty stretch without whitespace and without `@` is a run. */
  lemma RunOf(s: string, i: int, j: int)
    requires 0 <= i < j <= |s|
    requires NoWhitespace(s)
    requires forall k :: i <= k < j ==> s[k] != '@'
    ensures EmailRun(s[i..j])
  {
    var t := s[i..j];
    forall k | 0 <= k < |t| ensures EmailChar(t[k]) {
      assert t[k] == s[i + k];
    }
  }

  /** The empty string is not an email. */
  lemma EmptyIsNotEmail()
    ensures !IsValidEmail("")
  {
  }

  // ---------------------------------------------------------------------------
  // The forms
  // ---------------------------------------------------------------------------

  datatype VolunteerForm = VolunteerForm(
    name: string, email: string, phone: string, interests: string, availability: string)

  datatype HostForm = HostForm(
    name: string, email: string, address: string, spaceDescription: string, commitment: string)

  const EmptyVolunteerForm := VolunteerForm("", "", "", "", "")
  const EmptyHostForm := HostForm("", "", "", "", "")

  /** How the relay answers a post: `response.ok`, a response that is not ok,
      or a rejected `fetch` (caught by the handler). */
  datatype Reply = Ok | NotOk | Failed

  /** The result of a submit, told by the toast it shows: the two validation
      errors, the success toast of an ok response ("Thank you for your
      interest!", "Application Received!", "Subscribed!"), the "... recorded"
      toast of a caught failure, or no toast for a response that is
      not ok. */
  datatype Outcome = MissingInformation | InvalidEmail | Confirmed | Recorded | Silent

  /** The validation that runs before posting: `Passed` lets the post go out. */
  datatype Check = Passed | Refused(outcome: Outcome)

  /** Required fields first, then the email pattern: a form missing a
      required field reports that, whatever its email looks like. */
  function CheckVolunteer(form: VolunteerForm): (c: Check)
    ensures c == Passed <==> form.name != "" && IsValidEmail(form.email)
    ensures c == Refused(MissingInformation) <==> form.name == "" || form.email == ""
    ensures c == Refused(InvalidEmail) <==>
      form.name != "" && form.email != "" && !IsValidEmail(form.email)
  {
    EmptyIsNotEmail();
    if form.name == "" || form.email == "" then Refused(MissingInformation)
    else if !IsValidEmail(form.email) then Refused(InvalidEmail)
    else Passed
  }

  function CheckHost(form: HostForm): (c: Check)
    ensures c == Passed <==> form.name != "" && form.address != "" && IsValidEmail(form.email)
    ensures c == Refused(MissingInformation) <==>
      form.name == "" || form.email == "" || form.address == ""
    ensures c == Refused(InvalidEmail) <==>
      form.name != "" && form.email != "" && form.address != "" && !IsValidEmail(form.email)
  {
    EmptyIsNotEmail();
    if form.name == "" || form.email == "" || form.address == "" then Refused(MissingInformation)
    else if !IsValidEmail(form.email) then Refused(InvalidEmail)
    else Passed
  }

  /** The newsletter checks the email pattern only. */
  function CheckNewsletter(email: string): (c: Check)
    ensures c == Passed <==> IsValidEmail(email)
    ensures c == Refused(InvalidEmail) <==> !IsValidEmail(email)
    ensures c != Refused(MissingInformation)
  {
    if !IsValidEmail(email) then Refused(InvalidEmail) else Passed
  }

  /** What the relay's answer shows after a post. */
  function Answered(reply: Reply): Outcome
  {
    match reply
    case Ok => Confirmed
    case NotOk => Silent
    case Failed => Recorded
  }

  /** The form is cleared on an ok response or a caught failure. */
  predicate Clears(reply: Reply)
  {
    reply != NotOk
  }

  /** An empty email is reported as missing, never as invalid. */
  lemma EmptyEmailIsMissing(v: VolunteerForm, h: HostForm)
    requires v.email == "" && h.email == ""
    ensures CheckVolunteer(v) == Refused(MissingInformation)
    ensures CheckHost(h) == Refused(MissingInformation)
  {
  }

  /** The page's form state. */
  class GetInvolvedPage {
    var volunteerForm: VolunteerForm
    var hostForm: HostForm
    var newsletterEmail: string

    constructor ()
      ensures volunteerForm == EmptyVolunteerForm
      ensures hostForm == EmptyHostForm
      ensures newsletterEmail == ""
    {
      volunteerForm := EmptyVolunteerForm;
      hostForm := EmptyHostForm;
      newsletterEmail := "";
    }

    /** `handleVolunteerSubmit`; `reply` is what the relay does if asked. A
        refused form is not posted and stays as it is; a posted form is
        cleared unless the response is not ok. The other forms never change. */
    method SubmitVolunteer(reply: Reply) returns (posted: bool, outcome: Outcome)
      modifies this
      ensures posted <==> CheckVolunteer(old(volunteerForm)) == Passed
      ensures !posted ==> outcome == CheckVolunteer(old(volunteerForm)).outcome
      ensures posted ==> outcome == Answered(reply)
      ensures volunteerForm == if posted && Clears(reply) then EmptyVolunteerForm else old(volunteerForm)
      ensures hostForm == old(hostForm) && newsletterEmail == old(newsletterEmail)
    {
      var check := CheckVolunteer(volunteerForm);
      if check.Refused? {
        return false, check.outcome;
      }
      posted, outcome := true, Answered(reply);
      if Clears(reply) {
        volunteerForm := EmptyVolunteerForm;
      }
    }

    /** `handleHostSubmit`, as `SubmitVolunteer` with the host form. */
    method SubmitHost(reply: Reply) returns (posted: bool, outcome: Outcome)
      modifies this
      ensures posted <==> CheckHost(old(hostForm)) == Passed
      ensures !posted ==> outcome == CheckHost(old(hostForm)).outcome
      ensures posted ==> outcome == Answered(reply)
      ensures hostForm == if posted && Clears(reply) then EmptyHostForm else old(hostForm)
      ensures volunteerForm == old(volunteerForm) && newsletterEmail == old(newsletterEmail)
    {
      var check := CheckHost(hostForm);
      if check.Refused? {
        return false, check.outcome;
      }
      posted, outcome := true, Answered(reply);
      if Clears(reply) {
        hostForm := EmptyHostForm;
      }
    }

    /** `handleNewsletterSubmit`, as `SubmitVolunteer` with the newsletter email. */
    method SubmitNewsletter(reply: Reply) returns (posted: bool, outcome: Outcome)
      modifies this
      ensures posted <==> IsValidEmail(old(newsletterEmail))
      ensures !posted ==> outcome == InvalidEmail
      ensures posted ==> outcome == Answered(reply)
      ensures newsletterEmail == if posted && Clears(reply) then "" else old(newsletterEmail)
      ensures volunteerForm == old(volunteerForm) && hostForm == old(hostForm)
    {
      var check := CheckNewsletter(newsletterEmail);
      if check.Refused? {
        return false, check.outcome;
      }
      posted, outcome := true, Answered(reply);
      if Clears(reply) {
        newsletterEmail := "";
      }
    }
  }
}
