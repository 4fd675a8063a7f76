/**
 * The worked example of the record store: user `bob` with password `hunter2`, patient
 * `P1,Jane Doe,34,F,Flu,D1`, one Amoxicillin prescription for P1 and one for an unknown id.
 */
module Scenario {
  import opened Wrappers
  import opened Fields
  import opened Numbers
  import opened Records
  import opened FileReader
  import opened Hospital

  const JANE := Patient("P1", "Jane Doe", 34, "F", "Flu", "D1", [])
  const AMOXICILLIN := Prescription("Amoxicillin", 500, "twice daily")

  /** The last three fields of Jane's line. */
  lemma JaneLineTail()
    ensures JoinFields(["F", "Flu", "D1"]) == "F,Flu,D1"
  {
    JoinCons(["Flu", "D1"]);
    assert ["Flu", "D1"][1..] == ["D1"];
    JoinCons(["F", "Flu", "D1"]);
    assert ["F", "Flu", "D1"][1..] == ["Flu", "D1"];
  }

  /** The patient line reads as Jane Doe, aged 34, with no prescriptions. */
  lemma JaneDoeLoads()
    ensures PatientLinesReadable(["P1,Jane Doe,34,F,Flu,D1"])
    ensures ReadPatients(["P1,Jane Doe,34,F,Flu,D1"]) == [JANE]
  {
    JaneParses();
    ReadOneLine("P1,Jane Doe,34,F,Flu,D1", JANE);
  }

  /** Jane's line reads back as Jane. */
  lemma JaneParses()
    ensures ParsePatientLine("P1,Jane Doe,34,F,Flu,D1") == Some(JANE)
  {
    var tail := [JANE.gender, JANE.diagnosis, JANE.doctorAssigned];
    var rest := "," + (JoinFields(tail) + []);
    assert rest != [] && rest[0] == ',';
    assert Storable(JANE);
    TailFields(tail, []);
    StorableLineParses(JANE, rest);
    ThirtyFour();
    JaneLineTail();
    JaneLineText();
  }

  lemma JaneLineText()
    ensures "P1" + "," + ("Jane Doe" + "," + ("34" + ("," + ("F,Flu,D1" + [])))) == "P1,Jane Doe,34,F,Flu,D1"
  {
  }

  /** A file of one readable line holds that line's patient. */
  lemma ReadOneLine(line: string, p: Patient)
    requires ParsePatientLine(line) == Some(p)
    ensures PatientLinesReadable([line]) && ReadPatients([line]) == [p]
  {
    assert [line][1..] == [];
  }

  /**
   * `abc` is no number: `ss >> age` stores 0 and fails the stream, so Jane is read with age
   * 0 and empty gender, diagnosis and doctor.
   */
  lemma UnreadableAge()
    ensures ParsePatientLine("P1,Jane,abc,F,Flu,D1") == Some(Patient("P1", "Jane", 0, "", "", "", []))
  {
    var rest := "abc,F,Flu,D1";
    ReadNoDigits(rest);
    FailedAgeLeavesFieldsEmpty("P1", "Jane", rest);
    UnreadableAgeLine();
  }

  lemma UnreadableAgeLine()
    ensures "P1" + "," + ("Jane" + "," + "abc,F,Flu,D1") == "P1,Jane,abc,F,Flu,D1"
  {
  }

  /**
   * A space after the age: `ignore(1)` skips the space instead of the comma, so the gender
   * is empty and diagnosis and doctor are read from the gender and diagnosis fields.
   */
  lemma SpaceAfterAge()
    ensures ParsePatientLine("P1,Jane,34 ,F,Flu,D1") == Some(Patient("P1", "Jane", 34, "", "F", "Flu", []))
  {
    var more := ",F,Flu,D1";
    IgnoreSkipsOneCharacter("P1", "Jane", 34, " " + more);
    assert (" " + more)[1..] == more;
    ThirtyFour();
    SpaceAfterAgeLine();
    ShiftedFields();
  }

  lemma SpaceAfterAgeLine()
    ensures "P1" + "," + ("Jane" + "," + ("34" + (" " + ",F,Flu,D1"))) == "P1,Jane,34 ,F,Flu,D1"
  {
  }

  /** Jane's age in decimal. */
  lemma ThirtyFour()
    ensures IntToString(34) == "34"
  {
    assert NatToString(3) == "3";
  }

  /** The fields after the skipped space: an empty one, then `F` and `Flu`. */
  lemma ShiftedFields()
    ensures SplitFields(",F,Flu,D1", 3) == ["", "F", "Flu"]
  {
    JoinCons(["", "F", "Flu"]);
    JoinCons(["F", "Flu"]);
    assert ["", "F", "Flu"][1..] == ["F", "Flu"];
    assert ["F", "Flu"][1..] == ["Flu"];
    assert JoinFields(["", "F", "Flu"]) + ",D1" == ",F,Flu,D1";
    SplitJoin(["", "F", "Flu"], ",D1", 3);
    assert ["", "F", "Flu"] + Blanks(0) == ["", "F", "Flu"];
  }

  /** A line that ends after the name gives `ss >> age` nothing to read: no age is stored. */
  lemma LineWithoutAge()
    ensures ParsePatientLine("P1,Jane") == None
  {
    assert multiset("P1,Jane")[','] == 1 by {
      assert "P1,Jane" == "P1" + "," + "Jane";
      assert ',' !in "P1" && ',' !in "Jane";
    }
  }

  /** `bob` logs in with `hunter2` only: a different case or an unknown name fails. */
  lemma BobLogsIn()
    ensures CanLogin(UsersAfter(map[], ["bob,hunter2"]), "bob", "hunter2")
    ensures !CanLogin(UsersAfter(map[], ["bob,hunter2"]), "bob", "Hunter2")
    ensures !CanLogin(UsersAfter(map[], ["bob,hunter2"]), "alice", "hunter2")
  {
    var bob := User("bob", "hunter2");
    assert UserLine(bob) + [] == "bob,hunter2";
    UserLineRoundTrip(bob, []);
    UsersAfterLookup(map[], ["bob,hunter2"], "bob");
    UsersAfterLookup(map[], ["bob,hunter2"], "alice");
  }

  /** The dosage 500 in decimal. */
  lemma FiveHundred()
    ensures IntToString(500) == "500"
  {
    assert NatToString(5) == "5";
    assert NatToString(50) == "50";
  }

  /** The rendering of the Amoxicillin prescription, piece by piece. */
  lemma AmoxicillinText()
    ensures PrescriptionText(AMOXICILLIN)
      == "Medication: " + "Amoxicillin" + ", Dosage: " + "500" + "mg, Frequency: " + "twice daily"
  {
    FiveHundred();
  }

  /** After the prescription is added for P1, Jane's rendering ends with its line. */
  lemma AmoxicillinForJane()
    ensures PatientText(AddToFirstMatch([JANE], "P1", AMOXICILLIN)[0])
      == PatientText(JANE) + "  - "
        + ("Medication: " + "Amoxicillin" + ", Dosage: " + "500" + "mg, Frequency: " + "twice daily") + "\n"
  {
    assert FirstMatch([JANE], "P1") == Some(0);
    assert AddToFirstMatch([JANE], "P1", AMOXICILLIN)[0] == AddPrescription(JANE, AMOXICILLIN);
    PatientTextAfterAdd(JANE, AMOXICILLIN);
    AmoxicillinText();
  }

  /** Adding for the unknown id P9 leaves the patients as they were. */
  lemma UnknownPatientUnchanged()
    ensures AddToFirstMatch([JANE], "P9", AMOXICILLIN) == [JANE]
  {
    assert FirstMatch([JANE], "P9") == None;
  }
}
