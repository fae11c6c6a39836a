/**
 * Whole-form outcomes: what the submit handlers report for the two forms
 * under an assumed layout (one control per checked id, each in its own
 * group; the markup itself is not modelled), and the rule verdicts on a few
 * concrete values.
 */
module Scenarios {
  import opened Wrappers
  import opened Text
  import opened Feedback
  import opened RuleExamples
  import opened Forms

  /** An assumed appointment form: one control per id the submit handler
      looks up, each in its own group, groups 0 to 4 in the handler's order. */
  function AppointmentForm(name: string, phone: string, department: string, doctor: string, date: string): seq<Input>
  {
    [ Input("appointment-name", TextInput, true, name, "", Some(0)),
      Input("appointment-phone", Tel, true, phone, "", Some(1)),
      Input("department", Select, true, department, "", Some(2)),
      Input("doctor", Select, true, doctor, "", Some(3)),
      Input("appointment-date", Date, true, date, "", Some(4)) ]
  }

  /** An assumed contact form: one control per id the submit handler looks
      up, each in its own group, groups 0 to 2 in the handler's order. */
  function ContactForm(name: string, phone: string, email: string): seq<Input>
  {
    [ Input("name", TextInput, true, name, "", Some(0)),
      Input("phone", Tel, true, phone, "", Some(1)),
      Input("email", Email, true, email, "", Some(2)) ]
  }

  /** Each appointment check reads its own control. */
  lemma AppointmentFormLookups(name: string, phone: string, department: string, doctor: string, date: string)
    ensures var inputs := AppointmentForm(name, phone, department, doctor, date);
            && Find(inputs, "appointment-name") == Some(inputs[0])
            && Find(inputs, "appointment-phone") == Some(inputs[1])
            && Find(inputs, "department") == Some(inputs[2])
            && Find(inputs, "doctor") == Some(inputs[3])
            && Find(inputs, "appointment-date") == Some(inputs[4])
  {
    var inputs := AppointmentForm(name, phone, department, doctor, date);
    FoundAt(inputs, "appointment-name", 0);
    FoundAt(inputs, "appointment-phone", 1);
    FoundAt(inputs, "department", 2);
    FoundAt(inputs, "doctor", 3);
    FoundAt(inputs, "appointment-date", 4);
  }

  /** What each appointment check reports on its own. */
  lemma AppointmentCheckResults(name: string, phone: string, department: string, doctor: string, date: string)
    ensures var inputs := AppointmentForm(name, phone, department, doctor, date);
            var cs := AppointmentChecks;
            && CheckFailures(inputs, cs[0]) == (if Fails(MinTwoUnits, name) then [Failure(Some(0), NameMessage)] else [])
            && CheckFailures(inputs, cs[1]) == (if Fails(Phone, phone) then [Failure(Some(1), PhoneMessage)] else [])
            && CheckFailures(inputs, cs[2]) == (if department == [] then [Failure(Some(2), "Please select a department")] else [])
            && CheckFailures(inputs, cs[3]) == (if doctor == [] then [Failure(Some(3), "Please select a doctor")] else [])
            && CheckFailures(inputs, cs[4]) == (if date == [] then [Failure(Some(4), "Please select a date")] else [])
  {
    var inputs := AppointmentForm(name, phone, department, doctor, date);
    var cs := AppointmentChecks;
    AppointmentFormLookups(name, phone, department, doctor, date);
    CheckFailuresOfFound(inputs, cs[0], 0);
    CheckFailuresOfFound(inputs, cs[1], 1);
    CheckFailuresOfFound(inputs, cs[2], 2);
    CheckFailuresOfFound(inputs, cs[3], 3);
    CheckFailuresOfFound(inputs, cs[4], 4);
  }

  /** The failures of an appointment submit are those of its five controls, in page order. */
  lemma AppointmentFailures(name: string, phone: string, department: string, doctor: string, date: string)
    ensures var inputs := AppointmentForm(name, phone, department, doctor, date);
            Failures(inputs, AppointmentChecks)
            == (if Fails(MinTwoUnits, name) then [Failure(Some(0), NameMessage)] else [])
               + (if Fails(Phone, phone) then [Failure(Some(1), PhoneMessage)] else [])
               + (if department == [] then [Failure(Some(2), "Please select a department")] else [])
               + (if doctor == [] then [Failure(Some(3), "Please select a doctor")] else [])
               + (if date == [] then [Failure(Some(4), "Please select a date")] else [])
  {
    var inputs := AppointmentForm(name, phone, department, doctor, date);
    var cs := AppointmentChecks;
    AppointmentCheckResults(name, phone, department, doctor, date);
    FailuresOfFive(inputs, cs[0], cs[1], cs[2], cs[3], cs[4]);
    assert cs == [cs[0], cs[1], cs[2], cs[3], cs[4]];
  }

  /** A submit whose only bad value is the name (too short) reports exactly
      one failure, on the name's group, so the form is not valid (no banner,
      no reset). */
  lemma OnlyNameFails(name: string, phone: string, department: string, doctor: string, date: string)
    requires Fails(MinTwoUnits, name) && !Fails(Phone, phone)
    requires department != [] && doctor != [] && date != []
    ensures Failures(AppointmentForm(name, phone, department, doctor, date), AppointmentChecks)
            == [Failure(Some(0), NameMessage)]
  {
    AppointmentFailures(name, phone, department, doctor, date);
  }

  /** After that submit, the name's group is the only one in error, and it
      shows the name message. */
  lemma OnlyNameGroupMarked(gs: seq<Group>, g: nat, name: string, phone: string, department: string, doctor: string, date: string)
    requires Fails(MinTwoUnits, name) && !Fails(Phone, phone)
    requires department != [] && doctor != [] && date != []
    requires |gs| == 5 && g < 5
    ensures var r := Submitted(gs, AppointmentForm(name, phone, department, doctor, date), AppointmentChecks, KeepNode);
            && (r[g].error <==> g == 0)
            && r[0].messages != [] && r[0].messages[0] == NameMessage
  {
    var inputs := AppointmentForm(name, phone, department, doctor, date);
    OnlyNameFails(name, phone, department, doctor, date);
    var fs := Failures(inputs, AppointmentChecks);
    SubmitMarksExactlyFailing(gs, inputs, AppointmentChecks, KeepNode, g);
    SubmitMarksExactlyFailing(gs, inputs, AppointmentChecks, KeepNode, 0);
    assert fs[0] == Failure(Some(0), NameMessage);
    assert LastMessageFor(fs, 0) == Some(NameMessage) by {
      assert fs[..0] == [];
    }
  }

  /** A contact submit succeeds exactly when the name, the phone and the
      e-mail each pass their rule. */
  lemma ContactSucceedsIff(name: string, phone: string, email: string)
    ensures Failures(ContactForm(name, phone, email), ContactChecks) == []
            <==> !Fails(MinTwoUnits, name) && !Fails(Phone, phone) && !Fails(EmailAddress, email)
  {
    var inputs := ContactForm(name, phone, email);
    var cs := ContactChecks;
    FoundAt(inputs, "name", 0);
    FoundAt(inputs, "phone", 1);
    FoundAt(inputs, "email", 2);
    FailuresOfThree(inputs, cs[0], cs[1], cs[2]);
    assert cs == [cs[0], cs[1], cs[2]];
  }

  // ------------------------------------------------------------ concrete values

  lemma OneLetterNameFails()
    ensures Fails(MinTwoUnits, "A")
  {
    TrimKeepsInner("A");
  }

  lemma TwoLetterNamePasses()
    ensures !Fails(MinTwoUnits, "Al")
  {
    TrimKeepsInner("Al");
  }

  lemma FormattedPhonePasses()
    ensures !Fails(Phone, "(" + "555" + ") " + "123" + "-" + "4567")
  {
    TrimKeepsInner("(" + "555" + ") " + "123" + "-" + "4567");
    PhoneAcceptsFormatted();
  }

  lemma DashedPhonePasses()
    ensures !Fails(Phone, "" + "555" + "-" + "123" + "-" + "4567")
  {
    TrimKeepsInner("" + "555" + "-" + "123" + "-" + "4567");
    PhoneAcceptsDashed();
  }

  lemma SimpleEmailPasses()
    ensures !Fails(EmailAddress, "a" + "@" + ("b" + "." + "com"))
  {
    TrimKeepsInner("a" + "@" + ("b" + "." + "com"));
    EmailAcceptsSimple();
  }

  // ------------------------------------------------------------ concrete submits

  /** A one-character name with every other appointment field filled in is
      the only failure: the submit is not valid. */
  lemma ShortNameSubmit()
    ensures Failures(AppointmentForm("A", "(" + "555" + ") " + "123" + "-" + "4567", "cardiology", "smith", "2026-10-20"),
                     AppointmentChecks)
            == [Failure(Some(0), NameMessage)]
  {
    OneLetterNameFails();
    FormattedPhonePasses();
    OnlyNameFails("A", "(" + "555" + ") " + "123" + "-" + "4567", "cardiology", "smith", "2026-10-20");
  }

  /** Name `Al`, phone `555-123-4567` and e-mail `a@b.com` make a valid contact submit. */
  lemma ValidContactSubmit()
    ensures Failures(ContactForm("Al", "" + "555" + "-" + "123" + "-" + "4567", "a" + "@" + ("b" + "." + "com")),
                     ContactChecks)
            == []
  {
    TwoLetterNamePasses();
    DashedPhonePasses();
    SimpleEmailPasses();
    ContactSucceedsIff("Al", "" + "555" + "-" + "123" + "-" + "4567", "a" + "@" + ("b" + "." + "com"));
  }

  // ------------------------------------------------------------ submits on the page

  /** Submitting the appointment form with a one-character name: the submit is
      not valid, only the name's group shows an error, and no banner is added
      and no field is reset. */
  method ShortNameSubmitOnPage(gs: seq<Group>, cs: seq<Child>)
    returns (valid: bool, groups: seq<Group>, children: seq<Child>, inputs: seq<Input>)
    requires |gs| == 5 && SingleMessage(gs) && CountBanners(cs) <= 1
    ensures !valid
    ensures |groups| == 5 && groups[0].error && groups[0].messages != [] && groups[0].messages[0] == NameMessage
    ensures forall g :: 1 <= g < 5 ==> !groups[g].error
    ensures children == cs
    ensures inputs == AppointmentForm("A", "(" + "555" + ") " + "123" + "-" + "4567", "cardiology", "smith", "2026-10-20")
  {
    var page := AppointmentForm("A", "(" + "555" + ") " + "123" + "-" + "4567", "cardiology", "smith", "2026-10-20");
    var form := new Form(Appointment, gs, cs, page);
    valid := form.SubmitAppointment();
    ShortNameSubmit();
    NoFailuresIff(page, AppointmentChecks);
    OneLetterNameFails();
    FormattedPhonePasses();
    forall g | 0 <= g < 5
      ensures var r := Submitted(gs, page, AppointmentChecks, KeepNode);
              && (r[g].error <==> g == 0)
              && r[0].messages != [] && r[0].messages[0] == NameMessage
    {
      OnlyNameGroupMarked(gs, g, "A", "(" + "555" + ") " + "123" + "-" + "4567", "cardiology", "smith", "2026-10-20");
    }
    groups, children, inputs := form.groups, form.children, form.inputs;
  }

  /** Submitting the contact form with valid values: the submit is valid,
      every group's error is cleared, the success banner becomes the form's
      first child, and every field gets its default value back. */
  method ValidContactSubmitOnPage(gs: seq<Group>, cs: seq<Child>)
    returns (valid: bool, groups: seq<Group>, children: seq<Child>, inputs: seq<Input>)
    requires |gs| == 3 && SingleMessage(gs) && CountBanners(cs) <= 1
    ensures valid
    ensures |groups| == 3 && forall g :: 0 <= g < 3 ==> !groups[g].error
    ensures children == WithBanner(cs) && CountBanners(children) == 1 && children[0] == Banner
    ensures inputs == ResetValues(ContactForm("Al", "" + "555" + "-" + "123" + "-" + "4567", "a" + "@" + ("b" + "." + "com")))
  {
    var page := ContactForm("Al", "" + "555" + "-" + "123" + "-" + "4567", "a" + "@" + ("b" + "." + "com"));
    var form := new Form(Contact, gs, cs, page);
    ValidContactSubmit();
    NoFailuresIff(page, ContactChecks);
    valid := form.SubmitContact();
    forall g | 0 <= g < 3 ensures !Submitted(gs, page, ContactChecks, BlankText)[g].error {
      SubmitMarksExactlyFailing(gs, page, ContactChecks, BlankText, g);
    }
    groups, children, inputs := form.groups, form.children, form.inputs;
  }
}
