/**
 * What the two forms' handlers do to the page, as values: the state of each
 * `.form-group` (its `error` class and its `.error-message` nodes), the
 * form's direct children (where the success banner goes), the field checks
 * run on submit, and the single-field rules run on blur.
 */
module Feedback {
  import opened Wrappers
  import opened Text
  import opened Rules

  // ------------------------------------------------------------ page state

  /** One `.form-group`: whether it carries the `error` class, and the text
      of each `.error-message` node inside it, in document order. */
  datatype Group = Group(error: bool, messages: seq<string>)

  /** A direct child of a form: the `.form-success` banner or any other element. */
  datatype Child = Banner | Element(name: string)

  /** The control kinds the handlers tell apart (`input.type`, `input.tagName`). */
  datatype Kind = TextInput | Tel | Email | Date | Select | TextArea

  /** A form control: its `id`, kind, `required` attribute, current value, the
      value `form.reset()` restores, and the index of its enclosing
      `.form-group` (`None` when `closest('.form-group')` finds nothing). */
  datatype Input = Input(id: string, kind: Kind, required: bool, value: string,
                         defaultValue: string, group: Option<nat>)

  /** `form.reset()`: every control gets back its default value. */
  function ResetValues(inputs: seq<Input>): (r: seq<Input>)
    ensures |r| == |inputs|
    ensures forall k :: 0 <= k < |r| ==> r[k] == inputs[k].(value := inputs[k].defaultValue)
  {
    seq(|inputs|, k requires 0 <= k < |inputs| => inputs[k].(value := inputs[k].defaultValue))
  }

  /** How a handler takes an error off a group. The appointment submit only
      drops the class; the appointment blur and input handlers also remove
      the message node; the contact handlers keep the node and blank its text. */
  datatype Dismissal = KeepNode | RemoveNode | BlankText

  /** No group holds more than one error-message node. */
  ghost predicate SingleMessage(gs: seq<Group>)
  {
    forall g :: 0 <= g < |gs| ==> |gs[g].messages| <= 1
  }

  ghost predicate GroupsInRange(inputs: seq<Input>, n: nat)
  {
    forall k :: 0 <= k < |inputs| ==> inputs[k].group.Some? ==> inputs[k].group.value < n
  }

  // ------------------------------------------------------------ showFormError

  /** `showFormError` on an existing group: the class is set, the first
      message node is reused with the new text, and a node is created only
      when there is none. */
  function MarkError(gr: Group, message: string): (r: Group)
    ensures r.error && r.messages != [] && r.messages[0] == message
    ensures |r.messages| == if gr.messages == [] then 1 else |gr.messages|
    ensures gr.messages != [] ==> r.messages[1..] == gr.messages[1..]
  {
    Group(true, if gr.messages == [] then [message] else [message] + gr.messages[1..])
  }

  /** A later message overwrites an earlier one: marking twice is marking once with the last text. */
  lemma MarkErrorLastWins(gr: Group, first: string, second: string)
    ensures MarkError(MarkError(gr, first), second) == MarkError(gr, second)
  {
  }

  /** `showFormError(input, message)`: nothing happens when the input has no group. */
  function MarkAt(gs: seq<Group>, group: Option<nat>, message: string): (r: seq<Group>)
    ensures |r| == |gs|
    ensures forall g :: 0 <= g < |gs| && group != Some(g) ==> r[g] == gs[g]
    ensures group.Some? && group.value < |gs| ==> r[group.value] == MarkError(gs[group.value], message)
  {
    if group.Some? && group.value < |gs| then gs[group.value := MarkError(gs[group.value], message)] else gs
  }

  /** Taking the error off a group in one of the three styles. */
  function Dismiss(gr: Group, how: Dismissal): (r: Group)
    ensures !r.error
    ensures |r.messages| <= |gr.messages|
    ensures how == KeepNode ==> r.messages == gr.messages
    ensures how == RemoveNode ==> r.messages == if gr.messages == [] then [] else gr.messages[1..]
    ensures how == BlankText ==> (&& |r.messages| == |gr.messages|
                                  && (gr.messages != [] ==> r.messages[0] == [] && r.messages[1..] == gr.messages[1..]))
  {
    match how
    case KeepNode => Group(false, gr.messages)
    case RemoveNode => Group(false, if gr.messages == [] then [] else gr.messages[1..])
    case BlankText => Group(false, if gr.messages == [] then [] else [[]] + gr.messages[1..])
  }

  function DismissAt(gs: seq<Group>, group: Option<nat>, how: Dismissal): (r: seq<Group>)
    ensures |r| == |gs|
    ensures forall g :: 0 <= g < |gs| && group != Some(g) ==> r[g] == gs[g]
    ensures group.Some? && group.value < |gs| ==> r[group.value] == Dismiss(gs[group.value], how)
  {
    if group.Some? && group.value < |gs| then gs[group.value := Dismiss(gs[group.value], how)] else gs
  }

  /** The `formGroups.forEach` reset at the start of a submit. */
  function DismissAll(gs: seq<Group>, how: Dismissal): (r: seq<Group>)
    ensures |r| == |gs|
    ensures forall g :: 0 <= g < |gs| ==> r[g] == Dismiss(gs[g], how)
  {
    seq(|gs|, g requires 0 <= g < |gs| => Dismiss(gs[g], how))
  }

  // ------------------------------------------------------------ showSuccessMessage

  function CountBanners(cs: seq<Child>): nat
  {
    if cs == [] then 0 else (if cs[0] == Banner then 1 else 0) + CountBanners(cs[1..])
  }

  /** The children other than banners, in order. */
  function Elements(cs: seq<Child>): seq<Child>
  {
    if cs == [] then [] else (if cs[0] == Banner then [] else [cs[0]]) + Elements(cs[1..])
  }

  /** `form.querySelector('.form-success').remove()`: the first banner goes,
      nothing else moves. */
  function RemoveFirstBanner(cs: seq<Child>): (r: seq<Child>)
    ensures CountBanners(r) == if CountBanners(cs) == 0 then 0 else CountBanners(cs) - 1
    ensures Elements(r) == Elements(cs)
  {
    if cs == [] then []
    else if cs[0] == Banner then cs[1..]
    else [cs[0]] + RemoveFirstBanner(cs[1..])
  }

  /** `showSuccessMessage`: a new banner becomes the form's first child, at
      most one banner is left when there was at most one, and every other
      child keeps its place in the order. */
  function WithBanner(cs: seq<Child>): (r: seq<Child>)
    ensures r != [] && r[0] == Banner
    ensures CountBanners(cs) <= 1 ==> CountBanners(r) == 1
    ensures Elements(r) == Elements(cs)
  {
    [Banner] + RemoveFirstBanner(cs)
  }

  // ------------------------------------------------------------ submit checks

  /** The rule a submit handler applies to one field. Select and date fields
      are tested on the raw value (`!x.value`); the others on the trimmed one. */
  datatype Rule = MinTwoUnits | Phone | EmailAddress | Chosen

  /** One `if (x) { … showFormError(x, message); isValid = false; }` step. */
  datatype Check = Check(id: string, rule: Rule, message: string)

  /** A field that failed: the group it marks and the message it shows. */
  datatype Failure = Failure(group: Option<nat>, message: string)

  predicate Fails(rule: Rule, value: string)
  {
    match rule
    case MinTwoUnits => !IsLongEnoughName(Trim(value))
    case Phone => !IsValidPhone(Trim(value))
    case EmailAddress => !IsValidEmail(Trim(value))
    case Chosen => value == []
  }

  const NameMessage := "Name must be at least 2 characters long"
  const PhoneMessage := "Please enter a valid phone number"
  const EmailMessage := "Please enter a valid email address"
  const RequiredMessage := "This field is required"

  /** The appointment form's submit checks, in the order the handler runs them. */
  const AppointmentChecks: seq<Check> := [
    Check("appointment-name", MinTwoUnits, NameMessage),
    Check("appointment-phone", Phone, PhoneMessage),
    Check("department", Chosen, "Please select a department"),
    Check("doctor", Chosen, "Please select a doctor"),
    Check("appointment-date", Chosen, "Please select a date")
  ]

  /** The contact form's submit checks, in the order the handler runs them. */
  const ContactChecks: seq<Check> := [
    Check("name", MinTwoUnits, NameMessage),
    Check("phone", Phone, PhoneMessage),
    Check("email", EmailAddress, EmailMessage)
  ]

  /** `document.getElementById(id)`: the position of the first control with that id, or `|inputs|`. */
  function FindIndex(inputs: seq<Input>, id: string): (k: nat)
    ensures k <= |inputs|
    ensures k < |inputs| ==> inputs[k].id == id
    ensures forall j :: 0 <= j < k ==> inputs[j].id != id
  {
    if inputs == [] then 0
    else if inputs[0].id == id then 0
    else 1 + FindIndex(inputs[1..], id)
  }

  function Find(inputs: seq<Input>, id: string): Option<Input>
  {
    var k := FindIndex(inputs, id);
    if k < |inputs| then Some(inputs[k]) else None
  }

  /** `getElementById` finds the first control carrying the id. */
  lemma {:induction false} FoundAt(inputs: seq<Input>, id: string, k: nat)
    requires k < |inputs| && inputs[k].id == id
    requires forall j :: 0 <= j < k ==> inputs[j].id != id
    ensures Find(inputs, id) == Some(inputs[k])
  {
    if k > 0 {
      FoundAt(inputs[1..], id, k - 1);
    }
  }

  /** A check passes when its field is absent or its value satisfies the rule. */
  predicate Passes(inputs: seq<Input>, c: Check)
  {
    match Find(inputs, c.id)
    case None => true
    case Some(x) => !Fails(c.rule, x.value)
  }

  function CheckFailures(inputs: seq<Input>, c: Check): (r: seq<Failure>)
    ensures r == [] <==> Passes(inputs, c)
    ensures |r| <= 1
  {
    match Find(inputs, c.id)
    case None => []
    case Some(x) => if Fails(c.rule, x.value) then [Failure(x.group, c.message)] else []
  }

  /** A check whose control is found reports that control's group and the check's message exactly when the value breaks the rule. */
  lemma CheckFailuresOfFound(inputs: seq<Input>, c: Check, k: nat)
    requires k < |inputs| && Find(inputs, c.id) == Some(inputs[k])
    ensures CheckFailures(inputs, c)
            == if Fails(c.rule, inputs[k].value) then [Failure(inputs[k].group, c.message)] else []
  {
  }

  /** Every check runs, none short-circuits: the failures of all of them, in
      order (the last check's failures come last). */
  function Failures(inputs: seq<Input>, checks: seq<Check>): seq<Failure>
  {
    if checks == [] then []
    else Failures(inputs, checks[..|checks| - 1]) + CheckFailures(inputs, checks[|checks| - 1])
  }

  lemma {:induction false} FailuresConcat(inputs: seq<Input>, a: seq<Check>, b: seq<Check>)
    ensures Failures(inputs, a + b) == Failures(inputs, a) + Failures(inputs, b)
  {
    if b == [] {
      assert a + b == a;
    } else {
      assert (a + b)[..|a + b| - 1] == a + b[..|b| - 1];
      FailuresConcat(inputs, a, b[..|b| - 1]);
    }
  }

  lemma FailuresOfOne(inputs: seq<Input>, c: Check)
    ensures Failures(inputs, [c]) == CheckFailures(inputs, c)
  {
    assert [c][..0] == [];
  }

  /** The failures of a five-check table are those of its checks, in order. */
  lemma FailuresOfFive(inputs: seq<Input>, c0: Check, c1: Check, c2: Check, c3: Check, c4: Check)
    ensures Failures(inputs, [c0, c1, c2, c3, c4])
            == CheckFailures(inputs, c0) + CheckFailures(inputs, c1) + CheckFailures(inputs, c2)
               + CheckFailures(inputs, c3) + CheckFailures(inputs, c4)
  {
    assert [c0, c1, c2, c3, c4][..4] == [c0, c1, c2, c3];
    FailuresOfFour(inputs, c0, c1, c2, c3);
  }

  lemma FailuresOfFour(inputs: seq<Input>, c0: Check, c1: Check, c2: Check, c3: Check)
    ensures Failures(inputs, [c0, c1, c2, c3])
            == CheckFailures(inputs, c0) + CheckFailures(inputs, c1) + CheckFailures(inputs, c2)
               + CheckFailures(inputs, c3)
  {
    assert [c0, c1, c2, c3][..3] == [c0, c1, c2];
    FailuresOfThree(inputs, c0, c1, c2);
  }

  /** The failures of a three-check table are those of its checks, in order. */
  lemma FailuresOfThree(inputs: seq<Input>, c0: Check, c1: Check, c2: Check)
    ensures Failures(inputs, [c0, c1, c2])
            == CheckFailures(inputs, c0) + CheckFailures(inputs, c1) + CheckFailures(inputs, c2)
  {
    assert [c0, c1, c2][..2] == [c0, c1];
    FailuresOfTwo(inputs, c0, c1);
  }

  lemma FailuresOfTwo(inputs: seq<Input>, c0: Check, c1: Check)
    ensures Failures(inputs, [c0, c1]) == CheckFailures(inputs, c0) + CheckFailures(inputs, c1)
  {
    assert [c0, c1][..1] == [c0];
    FailuresOfOne(inputs, c0);
  }

  /** A form is valid exactly when every check passes, that is when every
      field that is present satisfies its rule. */
  lemma {:induction false} NoFailuresIff(inputs: seq<Input>, checks: seq<Check>)
    ensures Failures(inputs, checks) == [] <==> forall i :: 0 <= i < |checks| ==> Passes(inputs, checks[i])
  {
    if checks != [] {
      var init := checks[..|checks| - 1];
      NoFailuresIff(inputs, init);
      assert forall i :: 0 <= i < |init| ==> init[i] == checks[i];
      assert checks == init + [checks[|checks| - 1]];
    }
  }

  /** The group state after `showFormError` has run for each failure in turn. */
  function ApplyFailures(gs: seq<Group>, fs: seq<Failure>): (r: seq<Group>)
    ensures |r| == |gs|
  {
    if fs == [] then gs
    else
      var last := fs[|fs| - 1];
      MarkAt(ApplyFailures(gs, fs[..|fs| - 1]), last.group, last.message)
  }

  lemma {:induction false} ApplyFailuresConcat(gs: seq<Group>, a: seq<Failure>, b: seq<Failure>)
    ensures ApplyFailures(gs, a + b) == ApplyFailures(ApplyFailures(gs, a), b)
  {
    if b == [] {
      assert a + b == a;
    } else {
      assert (a + b)[..|a + b| - 1] == a + b[..|b| - 1];
      ApplyFailuresConcat(gs, a, b[..|b| - 1]);
    }
  }

  /** The message of the last failure that marks group `g`, if any. */
  function LastMessageFor(fs: seq<Failure>, g: nat): (r: Option<string>)
    ensures r.None? <==> forall i :: 0 <= i < |fs| ==> fs[i].group != Some(g)
    ensures r.Some? ==> exists i :: && 0 <= i < |fs| && fs[i] == Failure(Some(g), r.value)
                                    && forall j :: i < j < |fs| ==> fs[j].group != Some(g)
  {
    if fs == [] then None
    else if fs[|fs| - 1].group == Some(g) then Some(fs[|fs| - 1].message)
    else
      var init := fs[..|fs| - 1];
      var r := LastMessageFor(init, g);
      assert forall i :: 0 <= i < |init| ==> init[i] == fs[i];
      assert r.Some? ==> exists i :: && 0 <= i < |fs| && fs[i] == Failure(Some(g), r.value)
                                     && forall j :: i < j < |fs| ==> fs[j].group != Some(g) by {
        if r.Some? {
          var i :| && 0 <= i < |init| && init[i] == Failure(Some(g), r.value)
                   && forall j :: i < j < |init| ==> init[j].group != Some(g);
          assert fs[i] == Failure(Some(g), r.value);
        }
      }
      r
  }

  /** After the failures are shown, a group is untouched when no failure
      names it, and otherwise carries the error with the last message shown
      for it in its one reused message node. */
  lemma {:induction false} ApplyFailuresAt(gs: seq<Group>, fs: seq<Failure>, g: nat)
    requires g < |gs|
    ensures ApplyFailures(gs, fs)[g] == match LastMessageFor(fs, g)
                                         case None => gs[g]
                                         case Some(m) => MarkError(gs[g], m)
  {
    if fs != [] {
      ApplyFailuresAt(gs, fs[..|fs| - 1], g);
    }
  }

  /** Showing failures keeps every group at no more than one message node. */
  lemma ApplyFailuresSingle(gs: seq<Group>, fs: seq<Failure>)
    requires SingleMessage(gs)
    ensures SingleMessage(ApplyFailures(gs, fs))
  {
    forall g | 0 <= g < |gs| ensures |ApplyFailures(gs, fs)[g].messages| <= 1 {
      ApplyFailuresAt(gs, fs, g);
    }
  }

  /** The groups after a submit: all errors dismissed, then every failure shown. */
  function Submitted(gs: seq<Group>, inputs: seq<Input>, checks: seq<Check>, how: Dismissal): seq<Group>
  {
    ApplyFailures(DismissAll(gs, how), Failures(inputs, checks))
  }

  /** After a submit a group is in error exactly when some failing field
      belongs to it; it then shows the message of the last such field, and
      otherwise it is the dismissed group. */
  lemma SubmitMarksExactlyFailing(gs: seq<Group>, inputs: seq<Input>, checks: seq<Check>, how: Dismissal, g: nat)
    requires g < |gs|
    ensures var r := Submitted(gs, inputs, checks, how);
            && (r[g].error <==> exists f :: f in Failures(inputs, checks) && f.group == Some(g))
            && (LastMessageFor(Failures(inputs, checks), g).None? ==> r[g] == Dismiss(gs[g], how))
            && (LastMessageFor(Failures(inputs, checks), g).Some? ==>
                  r[g].messages != [] && r[g].messages[0] == LastMessageFor(Failures(inputs, checks), g).value)
  {
    var fs := Failures(inputs, checks);
    ApplyFailuresAt(DismissAll(gs, how), fs, g);
    if exists f :: f in fs && f.group == Some(g) {
      var f :| f in fs && f.group == Some(g);
      var i :| 0 <= i < |fs| && fs[i] == f;
    }
  }

  // ------------------------------------------------------------ blur

  /** One rule of a single-field validator: whether it fails, and what it then says. */
  datatype Verdict = Verdict(failed: bool, message: string)

  /** The first failing rule wins: its message, or `None` when every rule holds. */
  function FirstFailure(vs: seq<Verdict>): (r: Option<string>)
    ensures r.None? <==> forall i :: 0 <= i < |vs| ==> !vs[i].failed
    ensures r.Some? ==> exists i :: && 0 <= i < |vs| && vs[i].failed && vs[i].message == r.value
                                    && forall j :: 0 <= j < i ==> !vs[j].failed
  {
    if vs == [] then None
    else if vs[0].failed then Some(vs[0].message)
    else
      var r := FirstFailure(vs[1..]);
      assert forall i :: 1 <= i < |vs| ==> vs[1..][i - 1] == vs[i];
      assert r.Some? ==> exists i :: && 1 <= i < |vs| && vs[i].failed && vs[i].message == r.value
                                    && forall j :: 0 <= j < i ==> !vs[j].failed;
      r
  }

  /** `validateAppointmentField`'s rules in order: required and empty, bad
      phone, name too short. */
  function AppointmentFieldRules(x: Input): seq<Verdict>
  {
    var t := Trim(x.value);
    [ Verdict(x.required && (t == [] || (x.kind == Select && x.value == [])), RequiredMessage),
      Verdict(x.kind == Tel && t != [] && !IsValidPhone(t), PhoneMessage),
      Verdict(x.id == "appointment-name" && t != [] && Utf16Length(t) < 2, NameMessage) ]
  }

  /** `validateContactField`'s rules in order: required and empty, bad
      e-mail, bad phone, name too short. */
  function ContactFieldRules(x: Input): seq<Verdict>
  {
    var t := Trim(x.value);
    [ Verdict(x.required && t == [], RequiredMessage),
      Verdict(x.kind == Email && t != [] && !IsValidEmail(t), EmailMessage),
      Verdict(x.kind == Tel && t != [] && !IsValidPhone(t), PhoneMessage),
      Verdict(x.id == "name" && t != [] && Utf16Length(t) < 2, NameMessage) ]
  }

  function AppointmentFieldError(x: Input): Option<string>
  {
    FirstFailure(AppointmentFieldRules(x))
  }

  function ContactFieldError(x: Input): Option<string>
  {
    FirstFailure(ContactFieldRules(x))
  }

  /** For three rules: the first failing one wins. */
  lemma FirstFailureOfThree(a: Verdict, b: Verdict, c: Verdict)
    ensures FirstFailure([a, b, c]) == if a.failed then Some(a.message)
                                       else if b.failed then Some(b.message)
                                       else if c.failed then Some(c.message)
                                       else None
  {
    assert [a, b, c][1..] == [b, c];
    assert [b, c][1..] == [c];
    assert [c][..0] == [];
    assert FirstFailure([c]) == if c.failed then Some(c.message) else None;
  }

  /** For four rules: the first failing one wins. */
  lemma FirstFailureOfFour(a: Verdict, b: Verdict, c: Verdict, d: Verdict)
    ensures FirstFailure([a, b, c, d]) == if a.failed then Some(a.message)
                                          else FirstFailure([b, c, d])
  {
    assert [a, b, c, d][1..] == [b, c, d];
  }

  /** The appointment blur check passes exactly when a required field is not
      blank, a non-blank phone is valid and a non-blank appointment name is
      long enough; the separate select test for a required field adds nothing. */
  lemma AppointmentFieldPassesIff(x: Input)
    ensures var t := Trim(x.value);
            AppointmentFieldError(x).None? <==>
              && (x.required ==> t != [])
              && (x.kind == Tel && t != [] ==> IsValidPhone(t))
              && (x.id == "appointment-name" && t != [] ==> IsLongEnoughName(t))
  {
    TrimOfEmpty();
    var vs := AppointmentFieldRules(x);
    FirstFailureOfThree(vs[0], vs[1], vs[2]);
    assert vs == [vs[0], vs[1], vs[2]];
  }

  /** The contact blur check passes exactly when a required field is not
      blank, a non-blank e-mail, phone and name each satisfy their rule. */
  lemma ContactFieldPassesIff(x: Input)
    ensures var t := Trim(x.value);
            ContactFieldError(x).None? <==>
              && (x.required ==> t != [])
              && (x.kind == Email && t != [] ==> IsValidEmail(t))
              && (x.kind == Tel && t != [] ==> IsValidPhone(t))
              && (x.id == "name" && t != [] ==> IsLongEnoughName(t))
  {
    var vs := ContactFieldRules(x);
    FirstFailureOfFour(vs[0], vs[1], vs[2], vs[3]);
    FirstFailureOfThree(vs[1], vs[2], vs[3]);
    assert vs == [vs[0], vs[1], vs[2], vs[3]];
  }

  /** A blank required field is reported as required, whatever else it is
      (so an empty name is not reported as too short). */
  lemma BlankRequiredReportsRequired(x: Input)
    requires x.required && Trim(x.value) == []
    ensures AppointmentFieldError(x) == Some(RequiredMessage)
    ensures ContactFieldError(x) == Some(RequiredMessage)
  {
  }

  /** A non-blank e-mail field that breaks the e-mail rule is reported by
      that rule, before the phone and name rules are consulted. */
  lemma ContactEmailBeforeOthers(x: Input)
    requires x.kind == Email && Trim(x.value) != [] && !IsValidEmail(Trim(x.value))
    ensures ContactFieldError(x) == Some(EmailMessage)
  {
    var vs := ContactFieldRules(x);
    FirstFailureOfFour(vs[0], vs[1], vs[2], vs[3]);
    assert vs == [vs[0], vs[1], vs[2], vs[3]];
  }

  /** On a required field the blur check and the submit check agree: for the
      appointment name and the appointment phone field, blur passes exactly
      when the submit rule passes. */
  lemma AppointmentBlurAgreesWithSubmit(x: Input)
    requires x.required
    ensures x.id == "appointment-name" && x.kind != Tel ==>
              (AppointmentFieldError(x).None? <==> !Fails(MinTwoUnits, x.value))
    ensures x.kind == Tel && x.id != "appointment-name" ==>
              (AppointmentFieldError(x).None? <==> !Fails(Phone, x.value))
  {
    AppointmentFieldPassesIff(x);
    var t := Trim(x.value);
    assert Utf16Length(t) >= 2 ==> t != [];
    assert IsValidPhone(t) ==> t != [];
  }

  /** The group state after a blur check: the failing rule's message is
      shown, or the group's error is dismissed in the form's style. */
  function AfterBlur(gs: seq<Group>, x: Input, verdict: Option<string>, how: Dismissal): (r: seq<Group>)
    ensures |r| == |gs|
    ensures forall g :: 0 <= g < |gs| && x.group != Some(g) ==> r[g] == gs[g]
    ensures x.group.Some? && x.group.value < |gs| ==> (r[x.group.value].error <==> verdict.Some?)
  {
    match verdict
    case Some(m) => MarkAt(gs, x.group, m)
    case None => DismissAt(gs, x.group, how)
  }

  // ------------------------------------------------------------ input fast path

  /** The `input` handler's condition: the group is in error and the trimmed
      value is non-blank (for the appointment form, or a select has a value). */
  predicate FastPathClears(gs: seq<Group>, x: Input, selectCounts: bool)
  {
    && x.group.Some? && x.group.value < |gs| && gs[x.group.value].error
    && (Trim(x.value) != [] || (selectCounts && x.kind == Select && x.value != []))
  }

  /** The `input` handler: it never raises an error, it leaves every group
      that is not in error as it is, and it clears the field's group as soon
      as the condition holds, without re-running any rule. */
  function AfterInput(gs: seq<Group>, x: Input, selectCounts: bool, how: Dismissal): (r: seq<Group>)
    ensures |r| == |gs|
    ensures forall g :: 0 <= g < |gs| && !gs[g].error ==> r[g] == gs[g]
    ensures forall g :: 0 <= g < |gs| && r[g].error ==> gs[g].error
    ensures FastPathClears(gs, x, selectCounts) ==> !r[x.group.value].error
    ensures !FastPathClears(gs, x, selectCounts) ==> r == gs
  {
    if FastPathClears(gs, x, selectCounts) then DismissAt(gs, x.group, how) else gs
  }

  /** The fast path under-validates: an appointment name of one (non-blank)
      character clears its group's error on the first keystroke although the
      name rule, on blur and on submit alike, still rejects it. */
  lemma FastPathUnderValidates(gs: seq<Group>, x: Input, c: char)
    requires x.id == "appointment-name" && x.kind == TextInput && x.value == [c]
    requires !IsSpace(c) && (c as int) < 0x1_0000
    requires x.group.Some? && x.group.value < |gs| && gs[x.group.value].error
    ensures !AfterInput(gs, x, true, RemoveNode)[x.group.value].error
    ensures AppointmentFieldError(x) == Some(NameMessage)
    ensures Fails(MinTwoUnits, x.value)
  {
    TrimKeepsInner([c]);
    assert Utf16Length([c]) == 1;
    var vs := AppointmentFieldRules(x);
    FirstFailureOfThree(vs[0], vs[1], vs[2]);
    assert vs == [vs[0], vs[1], vs[2]];
  }
}
