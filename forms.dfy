/**
 * The appointment and contact forms as objects whose handlers change the
 * page in place: the submit handlers, `showFormError`,
 * `showSuccessMessage`, the blur validators and the `input` fast path.
 */
module Forms {
  import opened Text
  import opened Feedback

  /** Which of the page's two forms an object stands for: each form's
      handlers are bound to its own element only. */
  datatype FormKind = Appointment | Contact

  class Form {
    /** The form this object is: `#appointmentForm` or `#contactForm`. */
    const kind: FormKind
    /** The form's `.form-group` elements, in document order. */
    var groups: seq<Group>
    /** The form's direct children, where the success banner is inserted. */
    var children: seq<Child>
    /** The form's controls, in document order. */
    var inputs: seq<Input>

    /** At most one message node per group, at most one banner per form, and
        every control's group is one of the form's groups. */
    ghost predicate Valid()
      reads this
    {
      && SingleMessage(groups)
      && CountBanners(children) <= 1
      && GroupsInRange(inputs, |groups|)
    }

    constructor (kind: FormKind, groups: seq<Group>, children: seq<Child>, inputs: seq<Input>)
      requires SingleMessage(groups) && CountBanners(children) <= 1 && GroupsInRange(inputs, |groups|)
      ensures Valid()
      ensures this.kind == kind
      ensures this.groups == groups && this.children == children && this.inputs == inputs
    {
      this.kind := kind;
      this.groups := groups;
      this.children := children;
      this.inputs := inputs;
    }

    /** `showFormError(input, message)`. */
    method ShowFormError(x: Input, message: string)
      requires Valid() && x in inputs
      modifies this
      ensures Valid()
      ensures groups == MarkAt(old(groups), x.group, message)
      ensures x.group.Some? ==> |groups[x.group.value].messages| == 1 && groups[x.group.value].messages[0] == message
      ensures children == old(children) && inputs == old(inputs)
    {
      groups := MarkAt(groups, x.group, message);
    }

    /** `showSuccessMessage(form)`: exactly one banner is left, as the form's first child. */
    method ShowSuccessMessage()
      requires Valid()
      modifies this
      ensures Valid()
      ensures children == WithBanner(old(children))
      ensures CountBanners(children) == 1 && children[0] == Banner
      ensures groups == old(groups) && inputs == old(inputs)
    {
      children := WithBanner(children);
    }

    /** `form.reset()`: every control gets back its default value. */
    method Reset()
      requires Valid()
      modifies this
      ensures Valid()
      ensures inputs == ResetValues(old(inputs))
      ensures groups == old(groups) && children == old(children)
    {
      inputs := ResetValues(inputs);
    }

    /** The `formGroups.forEach` that opens each submit handler. */
    method DismissErrors(how: Dismissal)
      requires Valid()
      modifies this
      ensures Valid()
      ensures groups == DismissAll(old(groups), how)
      ensures children == old(children) && inputs == old(inputs)
    {
      var i := 0;
      while i < |groups|
        invariant 0 <= i <= |groups| == |old(groups)|
        invariant forall g :: 0 <= g < i ==> groups[g] == Dismiss(old(groups)[g], how)
        invariant forall g :: i <= g < |groups| ==> groups[g] == old(groups)[g]
        invariant children == old(children) && inputs == old(inputs)
      {
        groups := groups[i := Dismiss(groups[i], how)];
        i := i + 1;
      }
    }

    /** One field check of a submit handler: when the field is present and
        breaks its rule, its error is shown. */
    method RunCheck(c: Check) returns (ok: bool)
      requires Valid()
      modifies this
      ensures Valid()
      ensures ok <==> CheckFailures(inputs, c) == []
      ensures groups == ApplyFailures(old(groups), CheckFailures(inputs, c))
      ensures children == old(children) && inputs == old(inputs)
    {
      var k := FindIndex(inputs, c.id);
      if k < |inputs| && Fails(c.rule, inputs[k].value) {
        ShowFormError(inputs[k], c.message);
        ok := false;
      } else {
        ok := true;
      }
    }

    /** The five field checks of the appointment submit handler, every one
        run whatever the others found. */
    method CheckAppointmentFields() returns (valid: bool)
      requires Valid() && kind == Appointment
      modifies this
      ensures Valid()
      ensures valid <==> Failures(inputs, AppointmentChecks) == []
      ensures groups == ApplyFailures(old(groups), Failures(inputs, AppointmentChecks))
      ensures children == old(children) && inputs == old(inputs)
    {
      ghost var base := groups;
      ghost var fs: seq<Failure> := [];
      var cs := AppointmentChecks;
      valid := true;
      var ok := RunCheck(cs[0]);
      ApplyFailuresConcat(base, fs, CheckFailures(inputs, cs[0]));
      valid, fs := valid && ok, fs + CheckFailures(inputs, cs[0]);
      ok := RunCheck(cs[1]);
      ApplyFailuresConcat(base, fs, CheckFailures(inputs, cs[1]));
      valid, fs := valid && ok, fs + CheckFailures(inputs, cs[1]);
      ok := RunCheck(cs[2]);
      ApplyFailuresConcat(base, fs, CheckFailures(inputs, cs[2]));
      valid, fs := valid && ok, fs + CheckFailures(inputs, cs[2]);
      ok := RunCheck(cs[3]);
      ApplyFailuresConcat(base, fs, CheckFailures(inputs, cs[3]));
      valid, fs := valid && ok, fs + CheckFailures(inputs, cs[3]);
      ok := RunCheck(cs[4]);
      ApplyFailuresConcat(base, fs, CheckFailures(inputs, cs[4]));
      valid, fs := valid && ok, fs + CheckFailures(inputs, cs[4]);
      FailuresOfFive(inputs, cs[0], cs[1], cs[2], cs[3], cs[4]);
      assert cs == [cs[0], cs[1], cs[2], cs[3], cs[4]];
    }

    /** The appointment form's submit handler. */
    method SubmitAppointment() returns (valid: bool)
      requires Valid() && kind == Appointment
      modifies this
      ensures Valid()
      ensures valid <==> forall i :: 0 <= i < |AppointmentChecks| ==> Passes(old(inputs), AppointmentChecks[i])
      ensures groups == Submitted(old(groups), old(inputs), AppointmentChecks, KeepNode)
      ensures children == if valid then WithBanner(old(children)) else old(children)
      ensures inputs == if valid then ResetValues(old(inputs)) else old(inputs)
    {
      DismissErrors(KeepNode);
      valid := CheckAppointmentFields();
      NoFailuresIff(inputs, AppointmentChecks);
      if valid {
        ShowSuccessMessage();
        Reset();
      }
    }

    /** The three field checks of the contact submit handler, every one run
        whatever the others found. */
    method CheckContactFields() returns (valid: bool)
      requires Valid() && kind == Contact
      modifies this
      ensures Valid()
      ensures valid <==> Failures(inputs, ContactChecks) == []
      ensures groups == ApplyFailures(old(groups), Failures(inputs, ContactChecks))
      ensures children == old(children) && inputs == old(inputs)
    {
      ghost var base := groups;
      ghost var fs: seq<Failure> := [];
      var cs := ContactChecks;
      valid := true;
      var ok := RunCheck(cs[0]);
      ApplyFailuresConcat(base, fs, CheckFailures(inputs, cs[0]));
      valid, fs := valid && ok, fs + CheckFailures(inputs, cs[0]);
      ok := RunCheck(cs[1]);
      ApplyFailuresConcat(base, fs, CheckFailures(inputs, cs[1]));
      valid, fs := valid && ok, fs + CheckFailures(inputs, cs[1]);
      ok := RunCheck(cs[2]);
      ApplyFailuresConcat(base, fs, CheckFailures(inputs, cs[2]));
      valid, fs := valid && ok, fs + CheckFailures(inputs, cs[2]);
      FailuresOfThree(inputs, cs[0], cs[1], cs[2]);
      assert cs == [cs[0], cs[1], cs[2]];
    }

    /** The contact form's submit handler. */
    method SubmitContact() returns (valid: bool)
      requires Valid() && kind == Contact
      modifies this
      ensures Valid()
      ensures valid <==> forall i :: 0 <= i < |ContactChecks| ==> Passes(old(inputs), ContactChecks[i])
      ensures groups == Submitted(old(groups), old(inputs), ContactChecks, BlankText)
      ensures children == if valid then WithBanner(old(children)) else old(children)
      ensures inputs == if valid then ResetValues(old(inputs)) else old(inputs)
    {
      DismissErrors(BlankText);
      valid := CheckContactFields();
      NoFailuresIff(inputs, ContactChecks);
      if valid {
        ShowSuccessMessage();
        Reset();
      }
    }

    /** The appointment form's blur handler, `validateAppointmentField(x)`. */
    method ValidateAppointmentField(x: Input) returns (ok: bool)
      requires Valid() && kind == Appointment && x in inputs
      modifies this
      ensures Valid()
      ensures ok <==> AppointmentFieldError(x).None?
      ensures groups == AfterBlur(old(groups), x, AppointmentFieldError(x), RemoveNode)
      ensures children == old(children) && inputs == old(inputs)
    {
      var verdict := AppointmentFieldError(x);
      if verdict.Some? {
        ShowFormError(x, verdict.value);
        return false;
      }
      groups := DismissAt(groups, x.group, RemoveNode);
      ok := true;
    }

    /** The contact form's blur handler, `validateContactField(x)`. */
    method ValidateContactField(x: Input) returns (ok: bool)
      requires Valid() && kind == Contact && x in inputs
      modifies this
      ensures Valid()
      ensures ok <==> ContactFieldError(x).None?
      ensures groups == AfterBlur(old(groups), x, ContactFieldError(x), BlankText)
      ensures children == old(children) && inputs == old(inputs)
    {
      var verdict := ContactFieldError(x);
      if verdict.Some? {
        ShowFormError(x, verdict.value);
        return false;
      }
      groups := DismissAt(groups, x.group, BlankText);
      ok := true;
    }

    /** The appointment form's `input` handler: a select with a value also counts. */
    method AppointmentInput(x: Input)
      requires Valid() && kind == Appointment && x in inputs
      modifies this
      ensures Valid()
      ensures groups == AfterInput(old(groups), x, true, RemoveNode)
      ensures children == old(children) && inputs == old(inputs)
    {
      if x.group.Some? && groups[x.group.value].error {
        if Trim(x.value) != [] || (x.kind == Select && x.value != []) {
          groups := DismissAt(groups, x.group, RemoveNode);
        }
      }
    }

    /** The contact form's `input` handler. */
    method ContactInput(x: Input)
      requires Valid() && kind == Contact && x in inputs
      modifies this
      ensures Valid()
      ensures groups == AfterInput(old(groups), x, false, BlankText)
      ensures children == old(children) && inputs == old(inputs)
    {
      if x.group.Some? && groups[x.group.value].error {
        if Trim(x.value) != [] {
          groups := DismissAt(groups, x.group, BlankText);
        }
      }
    }
  }
}
