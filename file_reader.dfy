/**
 * `FileReaderUtil` and the per-line part of `HospitalManagementSystem::loadUsers`: one
 * record per line, fields separated by commas. A file is given as the sequence of lines
 * `std::getline` yields; a file that cannot be opened yields no lines, hence no records.
 */
module FileReader {
  import opened Wrappers
  import opened Fields
  import opened Numbers
  import opened Records

  /**
   * The text `ss >> age` reads in a patient line: what follows the second comma. None when
   * the line has fewer than two commas: the `getline` for the name then runs into the end of
   * the line, and the extraction after it stores nothing.
   */
  function AgeText(line: string): (r: Option<string>)
    ensures r.Some? <==> multiset(line)[','] >= 2
    ensures r.Some? ==> |r.value| < |line|
  {
    var (id, afterId) := NextField(line);
    if ',' !in afterId then
      assert multiset(line)[','] < 2 by {
        if ',' in line {
          assert multiset(line) == multiset(id) + multiset{','} + multiset(afterId);
        }
      }
      None
    else
      var (name, afterName) := NextField(afterId);
      assert multiset(line) == multiset(id) + multiset{','} + multiset(afterId);
      assert multiset(afterId) == multiset(name) + multiset{','} + multiset(afterName);
      Some(afterName)
  }

  /**
   * A patient line, read as `readPatients` does: `id` and `name` up to a comma each, then
   * `ss >> age`, `ss.ignore(1)` and three more fields. A failed age read stores 0 or a bound
   * and fails the stream, so the three fields after it stay empty; so does an age read that
   * ends the line. Otherwise `ignore` skips one character, whatever it is, and the three
   * fields are read from there. None when no age is ever stored: the line has fewer than
   * two commas or only white space after the second, and hms.cpp then copies an
   * uninitialised `int`.
   */
  function ParsePatientLine(line: string): (r: Option<Patient>)
    ensures r.None? <==> AgeText(line).None? || forall i :: 0 <= i < |AgeText(line).value| ==> IsSpace(AgeText(line).value[i])
    ensures r.Some? ==> Storable(r.value)
  {
    match AgeText(line)
    case None => None
    case Some(text) =>
      match ExtractInt(text)
      case None => None
      case Some(read) =>
        var (id, afterId) := NextField(line);
        var tail := FieldsAfterAge(read);
        Some(Patient(id, NextField(afterId).0, read.value, tail[0], tail[1], tail[2], []))
  }

  /** The gender, diagnosis and doctor fields, read after `ss >> age` and `ss.ignore(1)`. */
  function FieldsAfterAge(read: IntRead): (tail: seq<string>)
    ensures |tail| == 3 && forall i :: 0 <= i < 3 ==> ',' !in tail[i]
  {
    if read.failed || read.rest == [] then Blanks(3) else SplitFields(read.rest[1..], 3)
  }

  /** A doctor line `id,name,specialization`. */
  function ParseDoctorLine(line: string): (d: Doctor)
    ensures ',' !in d.id && ',' !in d.name && ',' !in d.specialization
    ensures d.id <= line
  {
    var f := SplitFields(line, 3);
    Doctor(f[0], f[1], f[2])
  }

  /** A user line `username,password`. */
  function ParseUserLine(line: string): (u: User)
    ensures ',' !in u.username && ',' !in u.password
    ensures u.username <= line
  {
    var f := SplitFields(line, 2);
    User(f[0], f[1])
  }

  /** Every line of a patient file gets an age stored by `ss >> age`. */
  predicate PatientLinesReadable(lines: seq<string>)
  {
    forall i :: 0 <= i < |lines| ==> ParsePatientLine(lines[i]).Some?
  }

  /** `FileReaderUtil::readPatients`: one patient per line, in file order. */
  function ReadPatients(lines: seq<string>): (ps: seq<Patient>)
    requires PatientLinesReadable(lines)
    ensures |ps| == |lines|
    ensures forall i :: 0 <= i < |lines| ==> ParsePatientLine(lines[i]) == Some(ps[i])
  {
    if lines == [] then []
    else [ParsePatientLine(lines[0]).value] + ReadPatients(lines[1..])
  }

  /** `FileReaderUtil::readDoctors`: one doctor per line, in file order. */
  function ReadDoctors(lines: seq<string>): (ds: seq<Doctor>)
    ensures |ds| == |lines|
    ensures forall i :: 0 <= i < |lines| ==> ds[i] == ParseDoctorLine(lines[i])
  {
    if lines == [] then [] else [ParseDoctorLine(lines[0])] + ReadDoctors(lines[1..])
  }

  /** The line of the patient file that holds `p`. */
  function PatientLine(p: Patient): string
  {
    JoinFields([p.id, p.name, IntToString(p.age), p.gender, p.diagnosis, p.doctorAssigned])
  }

  /** The line of the doctor file that holds `d`. */
  function DoctorLine(d: Doctor): string
  {
    JoinFields([d.id, d.name, d.specialization])
  }

  /** The line of the user file that holds `u`. */
  function UserLine(u: User): string
  {
    JoinFields([u.username, u.password])
  }

  /** A patient the patient file can hold: comma-free text, an `int` age, no prescriptions yet. */
  predicate Storable(p: Patient)
  {
    && ',' !in p.id && ',' !in p.name && ',' !in p.gender
    && ',' !in p.diagnosis && ',' !in p.doctorAssigned
    && INT_MIN <= p.age <= INT_MAX
    && p.prescriptions == []
  }

  /**
   * Reading a patient line gives the patient back; text after a further comma is ignored.
   * The age is read up to the comma after it, which `ignore(1)` then skips.
   */
  lemma PatientLineRoundTrip(p: Patient, extra: string)
    requires Storable(p)
    requires extra == [] || extra[0] == ','
    ensures ParsePatientLine(PatientLine(p) + extra) == Some(p)
  {
    var tail := [p.gender, p.diagnosis, p.doctorAssigned];
    PatientLineSplits(p, extra);
    TailFields(tail, extra);
    StorableLineParses(p, "," + (JoinFields(tail) + extra));
  }

  /**
   * A storable patient's id, name and age, each followed by a comma, then the rest of a line
   * whose next three fields are the patient's, read back as that patient.
   */
  lemma StorableLineParses(p: Patient, rest: string)
    requires Storable(p)
    requires rest != [] && rest[0] == ','
    requires SplitFields(rest[1..], 3) == [p.gender, p.diagnosis, p.doctorAssigned]
    ensures ParsePatientLine(p.id + "," + (p.name + "," + (IntToString(p.age) + rest))) == Some(p)
  {
    IgnoreSkipsOneCharacter(p.id, p.name, p.age, rest);
  }

  /** The last three fields of a patient line, after the comma that ends the age, read back as written. */
  lemma TailFields(tail: seq<string>, extra: string)
    requires |tail| == 3 && forall i :: 0 <= i < 3 ==> ',' !in tail[i]
    requires extra == [] || extra[0] == ','
    ensures SplitFields(("," + (JoinFields(tail) + extra))[1..], 3) == tail
  {
    assert ("," + (JoinFields(tail) + extra))[1..] == JoinFields(tail) + extra;
    SplitJoin(tail, extra, 3);
    assert tail + Blanks(0) == tail;
  }

  /** A patient line is its id, name and age text, each followed by a comma, then the rest. */
  lemma PatientLineSplits(p: Patient, extra: string)
    ensures PatientLine(p) + extra
      == p.id + "," + (p.name + "," + (IntToString(p.age) + ("," + (JoinFields([p.gender, p.diagnosis, p.doctorAssigned]) + extra))))
  {
    var fs := [p.id, p.name, IntToString(p.age), p.gender, p.diagnosis, p.doctorAssigned];
    JoinCons(fs);
    assert fs[1..] == [p.name, IntToString(p.age), p.gender, p.diagnosis, p.doctorAssigned];
    JoinCons(fs[1..]);
    assert fs[1..][1..] == [IntToString(p.age), p.gender, p.diagnosis, p.doctorAssigned];
    JoinCons(fs[1..][1..]);
    assert fs[1..][1..][1..] == [p.gender, p.diagnosis, p.doctorAssigned];
  }

  /** The age of a patient line is read from the text after its second comma. */
  lemma AgeTextOf(id: string, name: string, rest: string)
    requires ',' !in id && ',' !in name
    ensures var line := id + "," + (name + "," + rest);
      && NextField(line) == (id, name + "," + rest)
      && NextField(name + "," + rest) == (name, rest)
      && AgeText(line) == Some(rest)
  {
    NextFieldBeforeComma(id, name + "," + rest);
    NextFieldBeforeComma(name, rest);
    assert (name + "," + rest)[|name|] == ',';
  }

  /**
   * When `ss >> age` fails (no digit, or a value beyond `int`), the stream stays failed, so
   * gender, diagnosis and assigned doctor are all empty, whatever the line holds after.
   */
  lemma FailedAgeLeavesFieldsEmpty(id: string, name: string, rest: string)
    requires ',' !in id && ',' !in name
    requires ExtractInt(rest).Some? && ExtractInt(rest).value.failed
    ensures ParsePatientLine(id + "," + (name + "," + rest))
      == Some(Patient(id, name, ExtractInt(rest).value.value, "", "", "", []))
  {
    AgeTextOf(id, name, rest);
  }

  /**
   * `ss.ignore(1)` skips the one character after the age, whatever it is: when that is not
   * the comma, the gender is read from what follows it and the later fields shift.
   */
  lemma IgnoreSkipsOneCharacter(id: string, name: string, age: int, rest: string)
    requires ',' !in id && ',' !in name
    requires INT_MIN <= age <= INT_MAX
    requires rest != [] && !IsDigit(rest[0])
    ensures var f := SplitFields(rest[1..], 3);
      ParsePatientLine(id + "," + (name + "," + (IntToString(age) + rest)))
        == Some(Patient(id, name, age, f[0], f[1], f[2], []))
  {
    AgeTextOf(id, name, IntToString(age) + rest);
    ExtractIntToString(age, rest);
    assert FieldsAfterAge(IntRead(age, false, rest)) == SplitFields(rest[1..], 3);
  }

  /** Reading a doctor line gives the doctor back; text after a further comma is ignored. */
  lemma DoctorLineRoundTrip(d: Doctor, extra: string)
    requires ',' !in d.id && ',' !in d.name && ',' !in d.specialization
    requires extra == [] || extra[0] == ','
    ensures ParseDoctorLine(DoctorLine(d) + extra) == d
  {
    var fs := [d.id, d.name, d.specialization];
    SplitJoin(fs, extra, 3);
    assert SplitFields(DoctorLine(d) + extra, 3) == fs;
  }

  /** Reading a user line gives the credentials back; text after a further comma is ignored. */
  lemma UserLineRoundTrip(u: User, extra: string)
    requires ',' !in u.username && ',' !in u.password
    requires extra == [] || extra[0] == ','
    ensures ParseUserLine(UserLine(u) + extra) == u
  {
    var fs := [u.username, u.password];
    SplitJoin(fs, extra, 2);
    assert SplitFields(UserLine(u) + extra, 2) == fs;
  }

  /** A doctor line with fewer than three fields leaves the missing trailing fields empty. */
  lemma DoctorLineMissingFields(fs: seq<string>)
    requires |fs| <= 3
    requires forall i :: 0 <= i < |fs| ==> ',' !in fs[i]
    ensures var g := fs + Blanks(3 - |fs|); ParseDoctorLine(JoinFields(fs)) == Doctor(g[0], g[1], g[2])
  {
    SplitJoin(fs, [], 3);
    assert JoinFields(fs) + [] == JoinFields(fs);
  }

  /** A user line without a comma is a user name with an empty password. */
  lemma UserLineWithoutComma(line: string)
    requires ',' !in line
    ensures ParseUserLine(line) == User(line, "")
  {
    SplitJoin([line], [], 2);
    assert JoinFields([line]) + [] == line;
  }

  /** A patient file written from storable patients reads back as the same patients, in order. */
  lemma ReadPatientsRoundTrip(ps: seq<Patient>)
    requires forall i :: 0 <= i < |ps| ==> Storable(ps[i])
    ensures var lines := seq(|ps|, i requires 0 <= i < |ps| => PatientLine(ps[i]));
      PatientLinesReadable(lines) && ReadPatients(lines) == ps
  {
    var lines := seq(|ps|, i requires 0 <= i < |ps| => PatientLine(ps[i]));
    forall i | 0 <= i < |ps|
      ensures ParsePatientLine(lines[i]) == Some(ps[i])
    {
      PatientLineRoundTrip(ps[i], []);
      assert PatientLine(ps[i]) + [] == lines[i];
    }
  }

  /** A doctor read from its line is displayed with exactly the fields the line holds. */
  lemma DoctorShownAsLoaded(d: Doctor, extra: string)
    requires ',' !in d.id && ',' !in d.name && ',' !in d.specialization
    requires extra == [] || extra[0] == ','
    ensures DoctorText(ParseDoctorLine(DoctorLine(d) + extra))
      == "Doctor[ID=" + d.id + ", Name=" + d.name + ", Specialization=" + d.specialization + "]"
  {
    DoctorLineRoundTrip(d, extra);
  }

  /**
   * A patient read from its line is displayed with the fields the line holds and an empty
   * prescription list: the header alone.
   */
  lemma PatientShownAsLoaded(p: Patient, extra: string)
    requires Storable(p)
    requires extra == [] || extra[0] == ','
    ensures ParsePatientLine(PatientLine(p) + extra).Some?
    ensures PatientText(ParsePatientLine(PatientLine(p) + extra).value) == PatientHeader(p)
  {
    PatientLineRoundTrip(p, extra);
    assert PrescriptionLines([]) == "";
  }

  /**
   * A prescription's text, split on commas, is its three labelled parts: the medication,
   * the dosage in milligrams and the frequency, so each can be read back from the text.
   */
  lemma PrescriptionTextFields(rx: Prescription)
    requires ',' !in rx.medication && ',' !in rx.frequency
    ensures SplitFields(PrescriptionText(rx), 3)
      == ["Medication: " + rx.medication, " Dosage: " + IntToString(rx.dosage) + "mg",
          " Frequency: " + rx.frequency]
  {
    PrescriptionPartsSplit(rx.medication, IntToString(rx.dosage), rx.frequency);
  }

  /** The prescription format filled with comma-free medication, dosage and frequency. */
  lemma PrescriptionPartsSplit(medication: string, dosage: string, frequency: string)
    requires ',' !in medication && ',' !in dosage && ',' !in frequency
    ensures SplitFields("Medication: " + medication + ", Dosage: " + dosage
        + "mg, Frequency: " + frequency, 3)
      == ["Medication: " + medication, " Dosage: " + dosage + "mg", " Frequency: " + frequency]
  {
    var a := "Medication: " + medication;
    var b := " Dosage: " + dosage + "mg";
    var c := " Frequency: " + frequency;
    var text := "Medication: " + medication + ", Dosage: " + dosage + "mg, Frequency: " + frequency;
    assert ',' !in "Medication: " && ',' !in " Dosage: " && ',' !in "mg" && ',' !in " Frequency: ";
    assert ", Dosage: " == "," + " Dosage: ";
    assert "mg, Frequency: " == "mg" + "," + " Frequency: ";
    Regroup("Medication: ", medication, " Dosage: ", dosage, "mg", " Frequency: ", frequency);
    TextOfThree(a, b, c, text);
  }

  /**
   * A doctor's text, split on commas, is its three labelled parts, the last closed by `]`,
   * so the id, name and specialization can be read back from the text.
   */
  lemma DoctorTextFields(d: Doctor)
    requires ',' !in d.id && ',' !in d.name && ',' !in d.specialization
    ensures SplitFields(DoctorText(d), 3)
      == ["Doctor[ID=" + d.id, " Name=" + d.name, " Specialization=" + d.specialization + "]"]
  {
    var a := "Doctor[ID=" + d.id;
    var b := " Name=" + d.name;
    var c := " Specialization=" + d.specialization + "]";
    assert ", Name=" == "," + " Name=";
    assert ", Specialization=" == "," + " Specialization=";
    TextOfThree(a, b, c, DoctorText(d));
  }
}
