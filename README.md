# Hospital record store (hms.cpp) in Dafny

A model of the in-memory hospital record manager of `hms.cpp`. The program reads
patients, doctors and user credentials from comma-separated text files. It checks one
login by plain password comparison. It then lists the records and appends prescriptions to
a patient. Nothing is written back.

The model has seven modules. Six follow the parts of the program; `Scenario` is a worked
example:

- `Wrappers` (wrappers.dfy): the `Option` type used for results that may be absent.
- `Fields` (fields.dfy): one line split into comma-separated fields by repeated
  `std::getline(ss, field, ',')`. `JoinFields` writes a line from fields and is used as
  the inverse in round-trip lemmas.
- `Numbers` (numbers.dfy): `std::to_string` for `int` (`IntToString`) and the extraction
  `ss >> age` on the text after the name (`ExtractInt`): the value stored, whether the
  stream failed, and the text left unread.
- `Records` (records.dfy): `Prescription`, `Patient`, `Doctor` and `User` as datatypes.
  Also `Patient::addPrescription`, `User::validatePassword` and the three `toString`
  renderings. `RenderPatient` is the loop of `Patient::toString`.
- `FileReader` (file_reader.dfy): `FileReaderUtil::readPatients`/`readDoctors` and the
  per-line part of `loadUsers`. A file is the sequence of its lines. It also shows that a
  prescription's and a doctor's rendering split back into their fields.
- `Hospital` (hospital.dfy): the class `HospitalManagementSystem` with its fields
  `patients`, `doctors`, `users` and `currentUser`. Its methods state their new state in
  terms of specification functions: `FirstMatch`, `AddToFirstMatch`, `UsersAfter` and
  `CanLogin`.
- `Scenario` (scenario.dfy): a worked example. User `bob` has password `hunter2`. Patient
  `P1,Jane Doe,34,F,Flu,D1` gets Amoxicillin 500 mg twice daily. An unknown id `P9` changes
  nothing.

A patient is a value, not an object. The C++ `std::vector<Patient>` holds patients by
value, and `addPrescriptionToPatient` updates one element in place. The model reassigns
that one index of the `patients` sequence.

`loadUsers` (hms.cpp:163-181) never clears the map: a new load adds to the credentials
already held, and a later line for the same name overwrites the earlier one. `LoadUsers`,
`UsersAfter` and `UsersAfterLookup` state this behaviour. `loadPatients` and `loadDoctors` do replace
their collections.

A patient line is read as `readPatients` reads it (hms.cpp:96-102). After `ss >> age`
reads the age, `ss.ignore(1)` skips one character, whatever it is, and the last three
fields are read from there. If the extraction fails, it stores 0, or the nearest bound for a
value outside `int`, and the stream fails. The three fields after the age are then empty:
`P1,Jane,abc,F,Flu,D1` loads as Jane, aged 0, with empty gender, diagnosis and doctor. The
same holds when the age ends the line. Only a line with nothing but white space after its
second comma, or with fewer than two commas, leaves `age` uninitialised.

## Model

| member | source | states |
|---|---|---|
| `Fields.NextField` | hms.cpp:123 | one field read stops at the first comma, which is consumed; with no comma the whole rest is the field and nothing is left |
| `Fields.SplitFields` | hms.cpp:123-125 | reading `n` fields always yields `n` fields, none containing a comma |
| `Fields.SplitJoin` | hms.cpp:123-125 | splitting a line written from comma-free fields gives them back; missing trailing fields are empty; text after a further comma is dropped |
| `Numbers.IntToString` | hms.cpp:15 | `std::to_string` text: non-empty, a leading `-` exactly for negative values, otherwise digits, never a comma or line break |
| `Numbers.ExtractInt` | hms.cpp:98 | `ss >> age` stores nothing exactly when only white space is left; a stored value is a 32-bit `int`; unless the stream failed, reading stops at a character that is not a digit, or at the end |
| `Numbers.ExtractIntToString` | hms.cpp:98 | reading back the decimal text of any 32-bit `int`, followed by anything but a digit, gives the same value, a good stream, and the text after the digits |
| `Numbers.ReadNoDigits` | hms.cpp:98 | text that starts with no white space, sign or digit stores 0 and fails the stream, reading nothing |
| `Numbers.ReadTooLarge` | hms.cpp:98 | a digit run above the `int` maximum stores the maximum and fails the stream |
| `Records.AddPrescription` | hms.cpp:29-31 | the prescription is appended at the end of the list; every other field of the patient is unchanged |
| `Records.AddRepeatedlyAppends` | hms.cpp:30 | adding the same prescription `k` times leaves `k` copies after the earlier entries, with no deduplication |
| `Records.ValidatePassword` | hms.cpp:149 | the password matches exactly when it has the same length and the same character at every position: case-sensitive, no trimming |
| `Records.PrescriptionText` | hms.cpp:14-16 | the text starts with `Medication: ` and the medication name |
| `Records.PrescriptionTextOneLine` | hms.cpp:14-16 | a prescription whose medication and frequency have no line break renders without a line break |
| `FileReader.PrescriptionTextFields` | hms.cpp:14-16 | split on commas, the text is `Medication: ` with the medication, ` Dosage: ` with the dosage and `mg`, and ` Frequency: ` with the frequency, so each field can be read back from the text |
| `Records.PatientText` | hms.cpp:41-48 | the rendering starts with the header `Patient[ID=…]` and `Prescriptions:` line |
| `Records.PatientTextLines` | hms.cpp:41-48 | a patient whose fields have no line break renders as exactly `2 + n` lines for `n` prescriptions, ending with a line break |
| `Records.DoctorText` | hms.cpp:69-71 | the text starts with `Doctor[ID=` and the id, ends with `]`, and is one line when the fields are |
| `FileReader.DoctorTextFields` | hms.cpp:69-71 | split on commas, the text is `Doctor[ID=` with the id, ` Name=` with the name, and ` Specialization=` with the specialization and `]`, so each field can be read back |
| `Records.PrescriptionLinesConcat` | hms.cpp:44-46 | the prescription lines of a list are those of its parts, in order |
| `Records.PrescriptionLinesSnoc` | hms.cpp:44-46 | one more prescription adds its line at the end of the listing |
| `Records.RenderPatient` | hms.cpp:41-48 | the accumulation loop of `Patient::toString` builds the header followed by one line per prescription in insertion order |
| `Records.PatientTextAfterAdd` | hms.cpp:41-48 | after an addition the rendering is the old rendering plus the new prescription's line |
| `FileReader.AgeText` | hms.cpp:96-98 | there is text for `ss >> age` exactly when the line has at least two commas |
| `FileReader.ParsePatientLine` | hms.cpp:92-104 | a line yields no patient exactly when no age is stored (fewer than two commas, or only white space after the second); a patient read has comma-free fields, an `int` age and no prescriptions |
| `FileReader.FailedAgeLeavesFieldsEmpty` | hms.cpp:98-102 | after a failed age read the patient gets the value the extraction stored and empty gender, diagnosis and doctor |
| `FileReader.IgnoreSkipsOneCharacter` | hms.cpp:98-102 | after a good age read `ignore(1)` skips the next character, whatever it is, and the three fields are read from the text after it |
| `FileReader.ParseDoctorLine` | hms.cpp:120-127 | the doctor's fields contain no comma, and the id is the start of the line |
| `FileReader.ParseUserLine` | hms.cpp:173-177 | the user name and password contain no comma, and the user name is the start of the line |
| `FileReader.ReadPatients` | hms.cpp:91-105 | one patient per line, in file order, each as its line reads |
| `FileReader.ReadDoctors` | hms.cpp:119-128 | one doctor per line, in file order, each as its line reads |
| `FileReader.PatientLineRoundTrip` | hms.cpp:96-104 | a patient line written from comma-free fields and an `int` age reads back as that patient, with no prescriptions; everything from a further comma on is ignored |
| `FileReader.DoctorLineRoundTrip` | hms.cpp:123-127 | a doctor line reads back as that doctor; everything from a further comma on is ignored |
| `FileReader.UserLineRoundTrip` | hms.cpp:176-179 | a user line reads back as that user name and password; everything from a further comma on is ignored |
| `FileReader.DoctorLineMissingFields` | hms.cpp:123-127 | a doctor line with fewer than three fields gets empty trailing fields |
| `FileReader.UserLineWithoutComma` | hms.cpp:176-177 | a user line without a comma is a user name with an empty password |
| `FileReader.ReadPatientsRoundTrip` | hms.cpp:91-105 | a patient file written from storable patients reads back as the same patients in the same order |
| `FileReader.DoctorShownAsLoaded` | hms.cpp:69-71 | a doctor read from its line renders as `Doctor[ID=…, Name=…, Specialization=…]` with the line's fields |
| `FileReader.PatientShownAsLoaded` | hms.cpp:41-48 | a patient read from its line renders as the header alone, since it has no prescriptions yet |
| `Hospital.FirstMatch` | hms.cpp:207-213 | the index found is that of a patient with the id, and no earlier patient has the id; with no index, no patient has it |
| `Hospital.AddToFirstMatch` | hms.cpp:205-213 | same number of patients; all identifying fields kept; only the first match's list changes, by the prescription at its end; no match leaves everything unchanged |
| `Hospital.CanLogin` | hms.cpp:184 | login is allowed exactly when the name is held and its stored password equals the one given |
| `Hospital.UsersAfter` | hms.cpp:172-180 | loading keeps every name held before, holds the name of every line, and holds no new name that no line names |
| `Hospital.HospitalManagementSystem.constructor` | hms.cpp:219-223 | a new system holds no patients, doctors or users and no current user |
| `Hospital.HospitalManagementSystem.LoadPatients` | hms.cpp:155-157 | the patients become exactly those of the file; the other fields are unchanged |
| `Hospital.HospitalManagementSystem.LoadDoctors` | hms.cpp:159-161 | the doctors become exactly those of the file; the other fields are unchanged |
| `Hospital.HospitalManagementSystem.LoadUsers` | hms.cpp:163-181 | each line is stored under its user name on top of the credentials already held; the other fields are unchanged |
| `Hospital.HospitalManagementSystem.Login` | hms.cpp:183-189 | succeeds exactly when the name is held with exactly that password; on success the current user becomes the name, on failure nothing changes |
| `Hospital.HospitalManagementSystem.AddPrescriptionToPatient` | hms.cpp:205-217 | the scan appends to the first patient with the id and reports whether one was found; only the patients change |
| `Hospital.LaterDuplicateUntouched` | hms.cpp:207-211 | a later patient with the same id as an earlier one is never changed |
| `Hospital.AddChangesIffFound` | hms.cpp:205-216 | the patients change if and only if some patient has the id |
| `Hospital.AddKeepsFirstMatch` | hms.cpp:207-211 | adding keeps every id, so the first match stays the same |
| `Hospital.AddRepeatedlyToFirstMatch` | hms.cpp:205-213 | `n` additions for one id all go to the same first match and leave `n` copies there in call order; all other patients are unchanged |
| `Hospital.UsersAfterLookup` | hms.cpp:172-180 | after a load a name maps to the credentials of the last line naming it; a name no line names keeps its earlier entry or stays absent |
| `Hospital.UsersKeyedByName` | hms.cpp:179 | every stored credential sits under its own user name |
| `Hospital.LoginAfterLoad` | hms.cpp:183-189 | after loading a user file into an empty store, login succeeds exactly when the last line naming the user has exactly that password |
| `Scenario.JaneDoeLoads` | hms.cpp:96-104 | the line `P1,Jane Doe,34,F,Flu,D1` loads as Jane Doe, aged 34, with no prescriptions |
| `Scenario.UnreadableAge` | hms.cpp:98-102 | the line `P1,Jane,abc,F,Flu,D1` loads as Jane, aged 0, with empty gender, diagnosis and doctor |
| `Scenario.SpaceAfterAge` | hms.cpp:98-102 | in `P1,Jane,34 ,F,Flu,D1` the skipped character is the space, so the gender is empty and the later fields shift by one |
| `Scenario.LineWithoutAge` | hms.cpp:96-98 | the line `P1,Jane` stores no age, so it yields no patient |
| `Scenario.BobLogsIn` | hms.cpp:183-189 | with the user file `bob,hunter2`, `bob`/`hunter2` logs in, while `bob`/`Hunter2` and `alice`/`hunter2` do not |
| `Scenario.AmoxicillinForJane` | hms.cpp:41-48 | after adding Amoxicillin for P1, Jane's rendering ends with `  - Medication: Amoxicillin, Dosage: 500mg, Frequency: twice daily` |
| `Scenario.UnknownPatientUnchanged` | hms.cpp:214-216 | adding for the unknown id P9 leaves the patients unchanged |

## Left out

- File handling: opening the files and the `std::cerr` message for a file that cannot be opened (hms.cpp:83-89, 111-117, 164-170) are not modelled. A file is the sequence of its lines, and an unopenable file is the empty sequence, which yields no records.
- How `std::getline` divides a file into lines is taken as given.
- FileReader.ReadPatients: requires every line to get an age stored, i.e. at least two commas and something other than white space after the second. On any other line `ss >> age` stores nothing, and hms.cpp copies an uninitialised `int`, which is undefined behaviour; `ParsePatientLine` returns None there.
- Hospital.HospitalManagementSystem.LoadPatients: has the same precondition as `ReadPatients`, for the same reason.
- Numbers.ExtractInt: white space is the C locale's; the digits are read as the usual library does, up to the first character that is not a decimal digit. Locale facets, thousands grouping and other bases are not modelled.
- Dosages and ages are unbounded integers in `Prescription` and `Patient`. The C++ `int` overflow on console input is not modelled.
- `displayPatients` and `displayDoctors` (hms.cpp:191-203) write to `std::cout`. Only the texts they print per record are modelled (`PatientText`, `DoctorText`), not the stream or the `"Patients:"`/`"Doctors:"` headings.
- Hospital.HospitalManagementSystem.AddPrescriptionToPatient: the "Patient ID not found!" message is not printed. The method returns `found` instead.
- `main` (hms.cpp:226-289) is not modelled: the prompts, the `std::cin` reads, the menu loop and the dosage re-prompt. `std::cin >> frequency` reads a single word, so the console cannot actually enter a multi-word frequency such as "twice daily". The scenario builds that prescription directly.
- `std::unordered_map` hashing and iteration order are never observed. The credentials are a `map` with membership and lookup only.
- `Patient`'s getters (hms.cpp:33-39) are the datatype's fields.
