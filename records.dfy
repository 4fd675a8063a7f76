/**
 * The record types of hms.cpp and their text renderings: Prescription, Patient (with its
 * append-only prescription list), Doctor and the User credential pair.
 *
 * The facade keeps patients in a `std::vector<Patient>` by value, so a patient is a value
 * here and adding a prescription yields the updated value.
 */
module Records {
  import opened Numbers

  datatype Prescription = Prescription(medication: string, dosage: int, frequency: string)

  datatype Patient = Patient(
    id: string,
    name: string,
    age: int,
    gender: string,
    diagnosis: string,
    doctorAssigned: string,
    prescriptions: seq<Prescription>)

  datatype Doctor = Doctor(id: string, name: string, specialization: string)

  datatype User = User(username: string, password: string)

  /** `Patient::addPrescription`: the prescription goes at the end of the list, nothing else changes. */
  function AddPrescription(p: Patient, rx: Prescription): (q: Patient)
    ensures q.prescriptions == p.prescriptions + [rx]
    ensures q.(prescriptions := p.prescriptions) == p
  {
    p.(prescriptions := p.prescriptions + [rx])
  }

  /**
   * `User::validatePassword`: `std::string` equality with the stored password, so the same
   * length and the same character at every position (letter case included).
   */
  function ValidatePassword(u: User, pass: string): (ok: bool)
    ensures ok <==> |pass| == |u.password| && forall i :: 0 <= i < |pass| ==> pass[i] == u.password[i]
  {
    u.password == pass
  }

  /** Text whose last character is a line break. */
  predicate EndsLine(s: string)
  {
    |s| > 0 && s[|s| - 1] == '\n'
  }

  /** A prescription whose text fields hold no line break. */
  predicate OneLine(rx: Prescription)
  {
    '\n' !in rx.medication && '\n' !in rx.frequency
  }

  /** `Prescription::toString`: the medication first, then dosage and frequency. */
  function PrescriptionText(rx: Prescription): (s: string)
    ensures "Medication: " + rx.medication <= s
  {
    "Medication: " + rx.medication + ", Dosage: " + IntToString(rx.dosage)
      + "mg, Frequency: " + rx.frequency
  }

  /** The line `Patient::toString` writes for one prescription. */
  function PrescriptionLine(rx: Prescription): string
  {
    "  - " + PrescriptionText(rx) + "\n"
  }

  /** The prescription lines of a patient's rendering, in list order. */
  function PrescriptionLines(rxs: seq<Prescription>): string
  {
    if rxs == [] then "" else PrescriptionLine(rxs[0]) + PrescriptionLines(rxs[1..])
  }

  /** The first part of `Patient::toString`, up to and including the "Prescriptions:" line. */
  function PatientHeader(p: Patient): string
  {
    PatientSummary(p) + "\nPrescriptions:\n"
  }

  /** The bracketed summary `Patient::toString` starts with. */
  function PatientSummary(p: Patient): (s: string)
    ensures "Patient[ID=" + p.id <= s
  {
    "Patient[ID=" + p.id + ", Name=" + p.name + ", Age=" + IntToString(p.age)
      + ", Gender=" + p.gender + ", Diagnosis=" + p.diagnosis
      + ", Doctor Assigned=" + p.doctorAssigned + "]"
  }

  /** `Patient::toString`: the header, then one line per prescription. */
  function PatientText(p: Patient): (s: string)
    ensures PatientHeader(p) <= s
  {
    PatientHeader(p) + PrescriptionLines(p.prescriptions)
  }

  /** A patient whose own text fields hold no line break. */
  predicate FieldsOneLine(p: Patient)
  {
    && '\n' !in p.id && '\n' !in p.name && '\n' !in p.gender
    && '\n' !in p.diagnosis && '\n' !in p.doctorAssigned
  }

  /** A patient none of whose text fields, its prescriptions' included, holds a line break. */
  predicate PatientOneLine(p: Patient)
  {
    FieldsOneLine(p) && forall i :: 0 <= i < |p.prescriptions| ==> OneLine(p.prescriptions[i])
  }

  /** Number of line breaks in `s`. */
  function Breaks(s: string): nat
  {
    multiset(s)['\n']
  }

  /** Text without a line break, then one: a single whole line. */
  lemma BreakAfter(text: string)
    requires '\n' !in text
    ensures EndsLine(text + "\n")
    ensures Breaks(text + "\n") == 1
  {
    var nl := "\n";
    assert multiset(nl)['\n'] == 1;
    assert multiset(text + nl) == multiset(text) + multiset(nl);
  }

  /** Whole lines followed by whole lines. */
  lemma JoinLines(first: string, rest: string)
    requires EndsLine(first)
    requires rest != [] ==> EndsLine(rest)
    ensures EndsLine(first + rest)
    ensures Breaks(first + rest) == Breaks(first) + Breaks(rest)
  {
    assert multiset(first + rest) == multiset(first) + multiset(rest);
  }

  /** A prescription whose fields hold no line break renders without one. */
  lemma PrescriptionTextOneLine(rx: Prescription)
    requires OneLine(rx)
    ensures '\n' !in PrescriptionText(rx)
  {
    var dosage := IntToString(rx.dosage);
    var a := "Medication: ";
    var b := ", Dosage: ";
    var c := "mg, Frequency: ";
    assert '\n' !in a && '\n' !in b && '\n' !in c;
    assert PrescriptionText(rx) == a + rx.medication + b + dosage + c + rx.frequency;
  }

  /** A prescription's line is one whole line when its fields hold no line break. */
  lemma PrescriptionLineBreaks(rx: Prescription)
    requires OneLine(rx)
    ensures EndsLine(PrescriptionLine(rx)) && Breaks(PrescriptionLine(rx)) == 1
  {
    var bullet := "  - ";
    assert '\n' !in bullet;
    PrescriptionTextOneLine(rx);
    var text := bullet + PrescriptionText(rx);
    BreakAfter(text);
    assert PrescriptionLine(rx) == text + "\n";
  }

  /** One line per prescription. */
  lemma {:induction false} PrescriptionLinesBreaks(rxs: seq<Prescription>)
    requires forall i :: 0 <= i < |rxs| ==> OneLine(rxs[i])
    ensures rxs != [] ==> EndsLine(PrescriptionLines(rxs))
    ensures Breaks(PrescriptionLines(rxs)) == |rxs|
  {
    if rxs == [] {
      assert multiset(PrescriptionLines(rxs)) == multiset{};
    } else {
      PrescriptionLineBreaks(rxs[0]);
      PrescriptionLinesBreaks(rxs[1..]);
      JoinLines(PrescriptionLine(rxs[0]), PrescriptionLines(rxs[1..]));
    }
  }

  /** The summary of a patient whose fields hold no line break is a single line. */
  lemma SummaryOneLine(p: Patient)
    requires FieldsOneLine(p)
    ensures '\n' !in PatientSummary(p)
  {
    var age := IntToString(p.age);
    var a := "Patient[ID=";
    var b := ", Name=";
    var c := ", Age=";
    var d := ", Gender=";
    var e := ", Diagnosis=";
    var f := ", Doctor Assigned=";
    var g := "]";
    assert '\n' !in a && '\n' !in b && '\n' !in c && '\n' !in d;
    assert '\n' !in e && '\n' !in f && '\n' !in g;
    var front := a + p.id + b + p.name + c + age;
    assert '\n' !in front;
    var back := d + p.gender + e + p.diagnosis + f + p.doctorAssigned + g;
    assert '\n' !in back;
    assert PatientSummary(p) == front + back;
  }

  /** The header is two whole lines: the summary and "Prescriptions:". */
  lemma HeaderBreaks(p: Patient)
    requires FieldsOneLine(p)
    ensures EndsLine(PatientHeader(p)) && Breaks(PatientHeader(p)) == 2
  {
    var summary := PatientSummary(p);
    SummaryOneLine(p);
    var w := "Prescriptions:";
    assert '\n' !in w;
    BreakAfter(summary);
    BreakAfter(w);
    JoinLines(summary + "\n", w + "\n");
    HeaderSplits(summary);
  }

  /** The header's tail is a line break, "Prescriptions:" and another line break. */
  lemma HeaderSplits(summary: string)
    ensures summary + "\nPrescriptions:\n" == (summary + "\n") + ("Prescriptions:" + "\n")
  {
  }

  /**
   * The rendering of a patient whose fields hold no line break is two lines of header and
   * one line per prescription, and it ends with a line break.
   */
  lemma PatientTextLines(p: Patient)
    requires PatientOneLine(p)
    ensures EndsLine(PatientText(p))
    ensures Breaks(PatientText(p)) == 2 + |p.prescriptions|
  {
    HeaderBreaks(p);
    PrescriptionLinesBreaks(p.prescriptions);
    JoinLines(PatientHeader(p), PrescriptionLines(p.prescriptions));
  }

  /** `Doctor::toString`: one bracketed line, starting with the doctor's id. */
  function DoctorText(d: Doctor): (s: string)
    ensures "Doctor[ID=" + d.id <= s
    ensures s[|s| - 1] == ']'
    ensures '\n' !in d.id + d.name + d.specialization ==> '\n' !in s
  {
    "Doctor[ID=" + d.id + ", Name=" + d.name + ", Specialization=" + d.specialization + "]"
  }

  /** The rendering of two lists one after the other is the rendering of their concatenation. */
  lemma {:induction false} PrescriptionLinesConcat(a: seq<Prescription>, b: seq<Prescription>)
    ensures PrescriptionLines(a + b) == PrescriptionLines(a) + PrescriptionLines(b)
  {
    if a != [] {
      assert (a + b)[1..] == a[1..] + b;
      PrescriptionLinesConcat(a[1..], b);
    } else {
      assert a + b == b;
    }
  }

  /** Rendering a list with one more prescription adds that prescription's line at the end. */
  lemma PrescriptionLinesSnoc(rxs: seq<Prescription>, rx: Prescription)
    ensures PrescriptionLines(rxs + [rx]) == PrescriptionLines(rxs) + PrescriptionLine(rx)
  {
    PrescriptionLinesConcat(rxs, [rx]);
    assert PrescriptionLines([rx]) == PrescriptionLine(rx) + PrescriptionLines([]);
  }

  /**
   * `Patient::toString` accumulates its result line by line; the text it builds is
   * PatientText.
   */
  method RenderPatient(p: Patient) returns (result: string)
    ensures result == PatientText(p)
  {
    var rxs := p.prescriptions;
    result := PatientHeader(p);
    assert rxs[0..] == rxs;
    var i := 0;
    while i < |rxs|
      invariant 0 <= i <= |rxs|
      invariant result + PrescriptionLines(rxs[i..]) == PatientText(p)
    {
      var line := PrescriptionLine(rxs[i]);
      LinesFrom(rxs, i, result);
      result := result + line;
      i := i + 1;
    }
    assert PrescriptionLines(rxs[i..]) == "";
  }

  /** The lines from index `i` on are the line of prescription `i`, then those after it. */
  lemma LinesFrom(rxs: seq<Prescription>, i: nat, done: string)
    requires i < |rxs|
    ensures done + PrescriptionLines(rxs[i..])
      == (done + PrescriptionLine(rxs[i])) + PrescriptionLines(rxs[i + 1..])
  {
    assert rxs[i..][1..] == rxs[i + 1..];
    var line := PrescriptionLine(rxs[i]);
    var rest := PrescriptionLines(rxs[i + 1..]);
    assert PrescriptionLines(rxs[i..]) == line + rest;
    assert done + (line + rest) == (done + line) + rest;
  }

  /** Adding a prescription leaves the header as it was and adds its line at the end. */
  lemma PatientTextAfterAdd(p: Patient, rx: Prescription)
    ensures PatientText(AddPrescription(p, rx)) == PatientText(p) + PrescriptionLine(rx)
  {
    PrescriptionLinesSnoc(p.prescriptions, rx);
  }

  /** `k` successive additions of the same prescription. */
  function AddRepeatedly(p: Patient, rx: Prescription, k: nat): Patient
  {
    if k == 0 then p else AddPrescription(AddRepeatedly(p, rx, k - 1), rx)
  }

  /**
   * The list is never deduplicated: adding the same prescription `k` times leaves `k` copies
   * of it after the earlier entries, and the patient's other fields untouched.
   */
  lemma {:induction false} AddRepeatedlyAppends(p: Patient, rx: Prescription, k: nat)
    ensures AddRepeatedly(p, rx, k).prescriptions == p.prescriptions + seq(k, _ => rx)
    ensures AddRepeatedly(p, rx, k).(prescriptions := p.prescriptions) == p
  {
    if k > 0 {
      AddRepeatedlyAppends(p, rx, k - 1);
      assert seq(k, _ => rx) == seq(k - 1, _ => rx) + [rx];
    }
  }
}
