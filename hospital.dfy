/**
 * `HospitalManagementSystem`: the record store the console menu of hms.cpp drives. It owns
 * the patients and doctors (in load order), the credentials keyed by user name, and the
 * name of the user who logged in.
 */
module Hospital {
  import opened Wrappers
  import opened Records
  import opened FileReader

  /** Index of the first patient, in load order, whose id is `id`. */
  function FirstMatch(ps: seq<Patient>, id: string): (r: Option<nat>)
    ensures r.Some? ==> r.value < |ps| && ps[r.value].id == id
    ensures r.Some? ==> forall j :: 0 <= j < r.value ==> ps[j].id != id
    ensures r.None? ==> forall j :: 0 <= j < |ps| ==> ps[j].id != id
  {
    if ps == [] then None
    else if ps[0].id == id then Some(0)
    else
      assert forall j :: 1 <= j < |ps| ==> ps[1..][j - 1] == ps[j];
      match FirstMatch(ps[1..], id)
      case None => None
      case Some(k) => Some(k + 1)
  }

  /**
   * The patients after `addPrescriptionToPatient(id, rx)`: as many as before, each with its
   * id, name, age, gender, diagnosis and doctor; only the first match's list changes, by the
   * new prescription at its end, and with no match nothing changes.
   */
  function AddToFirstMatch(ps: seq<Patient>, id: string, rx: Prescription): (r: seq<Patient>)
    ensures |r| == |ps|
    ensures forall j :: 0 <= j < |ps| ==> r[j].(prescriptions := ps[j].prescriptions) == ps[j]
    ensures forall j :: 0 <= j < |ps| && FirstMatch(ps, id) != Some(j) ==> r[j] == ps[j]
    ensures FirstMatch(ps, id).Some? ==>
      var k := FirstMatch(ps, id).value;
      r[k].prescriptions == ps[k].prescriptions + [rx]
  {
    match FirstMatch(ps, id)
    case None => ps
    case Some(k) => ps[k := AddPrescription(ps[k], rx)]
  }

  /**
   * `login`'s test: the user name is known and `validatePassword` accepts `password`, so
   * only the stored password itself, compared exactly, lets the user in.
   */
  function CanLogin(users: map<string, User>, username: string, password: string): (ok: bool)
    ensures ok <==> username in users && password == users[username].password
  {
    username in users && ValidatePassword(users[username], password)
  }

  /** The credentials after `loadUsers` has stored each line in turn: a later line wins. */
  function UsersAfter(users: map<string, User>, lines: seq<string>): (r: map<string, User>)
    ensures users.Keys <= r.Keys
    ensures forall i :: 0 <= i < |lines| ==> ParseUserLine(lines[i]).username in r
    ensures forall name :: name in r && name !in users ==> LastLineFor(lines, name).Some?
    decreases |lines|
  {
    if lines == [] then users
    else
      var u := ParseUserLine(lines[0]);
      var next := users[u.username := u];
      var r := UsersAfter(next, lines[1..]);
      assert forall i :: 0 <= i < |lines| ==> ParseUserLine(lines[i]).username in r by {
        forall i | 0 <= i < |lines|
          ensures ParseUserLine(lines[i]).username in r
        {
          if i > 0 {
            assert lines[i] == lines[1..][i - 1];
          }
        }
      }
      assert forall name :: name in r && name !in users ==> LastLineFor(lines, name).Some? by {
        forall name | name in r && name !in users
          ensures LastLineFor(lines, name).Some?
        {
          if name in next {
            assert name == u.username;
          }
        }
      }
      r
  }

  /** Index of the last line of a user file that names `username`. */
  function LastLineFor(lines: seq<string>, username: string): (r: Option<nat>)
    ensures r.Some? ==> r.value < |lines| && ParseUserLine(lines[r.value]).username == username
    ensures r.Some? ==> forall j :: r.value < j < |lines| ==> ParseUserLine(lines[j]).username != username
    ensures r.None? ==> forall j :: 0 <= j < |lines| ==> ParseUserLine(lines[j]).username != username
  {
    if lines == [] then None
    else
      assert forall j :: 1 <= j < |lines| ==> lines[1..][j - 1] == lines[j];
      match LastLineFor(lines[1..], username)
      case Some(k) => Some(k + 1)
      case None => if ParseUserLine(lines[0]).username == username then Some(0) else None
  }

  class HospitalManagementSystem {
    var patients: seq<Patient>
    var doctors: seq<Doctor>
    var users: map<string, User>
    var currentUser: string

    /** A new system holds no records and no one is logged in. */
    constructor ()
      ensures patients == [] && doctors == [] && users == map[] && currentUser == ""
    {
      patients := [];
      doctors := [];
      users := map[];
      currentUser := "";
    }

    /** `loadPatients`: the patient file replaces whatever patients were held before. */
    method LoadPatients(lines: seq<string>)
      requires PatientLinesReadable(lines)
      modifies this`patients
      ensures patients == ReadPatients(lines)
      ensures doctors == old(doctors) && users == old(users) && currentUser == old(currentUser)
    {
      patients := ReadPatients(lines);
    }

    /** `loadDoctors`: the doctor file replaces whatever doctors were held before. */
    method LoadDoctors(lines: seq<string>)
      modifies this`doctors
      ensures doctors == ReadDoctors(lines)
      ensures patients == old(patients) && users == old(users) && currentUser == old(currentUser)
    {
      doctors := ReadDoctors(lines);
    }

    /** `loadUsers`: each line is stored under its user name, on top of the credentials held. */
    method LoadUsers(lines: seq<string>)
      modifies this`users
      ensures users == UsersAfter(old(users), lines)
      ensures patients == old(patients) && doctors == old(doctors) && currentUser == old(currentUser)
    {
      var i := 0;
      while i < |lines|
        invariant 0 <= i <= |lines|
        invariant UsersAfter(users, lines[i..]) == UsersAfter(old(users), lines)
      {
        var u := ParseUserLine(lines[i]);
        assert lines[i..][1..] == lines[i + 1..];
        users := users[u.username := u];
        i := i + 1;
      }
    }

    /** `login`: on success the user becomes the current user; on failure nothing changes. */
    method Login(username: string, password: string) returns (ok: bool)
      modifies this`currentUser
      ensures ok == CanLogin(users, username, password)
      ensures currentUser == if ok then username else old(currentUser)
      ensures patients == old(patients) && doctors == old(doctors) && users == old(users)
    {
      if username in users && ValidatePassword(users[username], password) {
        currentUser := username;
        return true;
      }
      return false;
    }

    /**
     * `addPrescriptionToPatient`: scan the patients in load order and append to the first
     * whose id matches; `found` is false, and nothing changes, when no id matches.
     */
    method AddPrescriptionToPatient(patientId: string, rx: Prescription) returns (found: bool)
      modifies this`patients
      ensures found == FirstMatch(old(patients), patientId).Some?
      ensures patients == AddToFirstMatch(old(patients), patientId, rx)
      ensures doctors == old(doctors) && users == old(users) && currentUser == old(currentUser)
    {
      found := false;
      var i := 0;
      while i < |patients|
        invariant 0 <= i <= |patients|
        invariant patients == old(patients)
        invariant forall j :: 0 <= j < i ==> patients[j].id != patientId
      {
        if patients[i].id == patientId {
          patients := patients[i := AddPrescription(patients[i], rx)];
          found := true;
          break;
        }
        i := i + 1;
      }
    }
  }

  /** Only the first patient with the id gets the prescription; a later duplicate is untouched. */
  lemma LaterDuplicateUntouched(ps: seq<Patient>, id: string, rx: Prescription, i: nat, j: nat)
    requires i < j < |ps|
    requires ps[i].id == id && ps[j].id == id
    ensures |AddToFirstMatch(ps, id, rx)| == |ps|
    ensures AddToFirstMatch(ps, id, rx)[j] == ps[j]
  {
    var k := FirstMatch(ps, id).value;
    assert k <= i;
  }

  /** The patients change exactly when some patient has the id. */
  lemma AddChangesIffFound(ps: seq<Patient>, id: string, rx: Prescription)
    ensures AddToFirstMatch(ps, id, rx) == ps <==> forall j :: 0 <= j < |ps| ==> ps[j].id != id
  {
    match FirstMatch(ps, id)
    case None =>
    case Some(k) =>
      var r := AddToFirstMatch(ps, id, rx);
      assert |r[k].prescriptions| == |ps[k].prescriptions| + 1;
  }

  /** Adding keeps every id, so the first match stays the first match. */
  lemma AddKeepsFirstMatch(ps: seq<Patient>, id: string, rx: Prescription)
    ensures FirstMatch(AddToFirstMatch(ps, id, rx), id) == FirstMatch(ps, id)
  {
    var r := AddToFirstMatch(ps, id, rx);
    assert forall j :: 0 <= j < |ps| ==> r[j].id == ps[j].id by {
      forall j | 0 <= j < |ps|
        ensures r[j].id == ps[j].id
      {
        assert r[j].(prescriptions := ps[j].prescriptions) == ps[j];
      }
    }
  }

  /** `n` successive additions of the same prescription for the same id. */
  function AddToFirstMatchRepeatedly(ps: seq<Patient>, id: string, rx: Prescription, n: nat): seq<Patient>
  {
    if n == 0 then ps else AddToFirstMatch(AddToFirstMatchRepeatedly(ps, id, rx, n - 1), id, rx)
  }

  /**
   * Repeated additions all go to the same first match and pile up there, `n` copies in call
   * order with no deduplication; every other patient is left as it was.
   */
  lemma {:induction false} AddRepeatedlyToFirstMatch(ps: seq<Patient>, id: string, rx: Prescription, n: nat)
    requires FirstMatch(ps, id).Some?
    ensures var r := AddToFirstMatchRepeatedly(ps, id, rx, n);
      var k := FirstMatch(ps, id).value;
      && |r| == |ps|
      && FirstMatch(r, id) == Some(k)
      && r[k] == AddRepeatedly(ps[k], rx, n)
      && (forall j :: 0 <= j < |ps| && j != k ==> r[j] == ps[j])
  {
    if n > 0 {
      AddRepeatedlyToFirstMatch(ps, id, rx, n - 1);
      var prev := AddToFirstMatchRepeatedly(ps, id, rx, n - 1);
      AddOneMore(ps, prev, id, rx, FirstMatch(ps, id).value);
    }
  }

  /** One more addition on top of earlier ones for the same first match. */
  lemma AddOneMore(ps: seq<Patient>, prev: seq<Patient>, id: string, rx: Prescription, k: nat)
    requires |prev| == |ps| && k < |ps|
    requires FirstMatch(prev, id) == Some(k)
    requires forall j :: 0 <= j < |ps| && j != k ==> prev[j] == ps[j]
    ensures var r := AddToFirstMatch(prev, id, rx);
      && |r| == |ps|
      && FirstMatch(r, id) == Some(k)
      && r[k] == AddPrescription(prev[k], rx)
      && (forall j :: 0 <= j < |ps| && j != k ==> r[j] == ps[j])
  {
    AddKeepsFirstMatch(prev, id, rx);
    assert AddToFirstMatch(prev, id, rx) == prev[k := AddPrescription(prev[k], rx)];
  }

  /**
   * After `loadUsers` on a file, a user name maps to the credentials on the last line that
   * names it; a name no line mentions keeps the entry it had before, or stays absent.
   */
  lemma {:induction false} UsersAfterLookup(users: map<string, User>, lines: seq<string>, name: string)
    decreases |lines|
    ensures var r := UsersAfter(users, lines);
      match LastLineFor(lines, name)
      case Some(k) => name in r && r[name] == ParseUserLine(lines[k])
      case None => (name in r <==> name in users) && (name in users ==> r[name] == users[name])
  {
    if lines != [] {
      var u := ParseUserLine(lines[0]);
      UsersAfterLookup(users[u.username := u], lines[1..], name);
    }
  }

  /** Every credential is stored under its own user name, if that held before the load. */
  lemma {:induction false} UsersKeyedByName(users: map<string, User>, lines: seq<string>)
    requires forall name :: name in users ==> users[name].username == name
    ensures var r := UsersAfter(users, lines); forall name :: name in r ==> r[name].username == name
    decreases |lines|
  {
    if lines != [] {
      var u := ParseUserLine(lines[0]);
      var next := users[u.username := u];
      assert forall name :: name in next ==> next[name].username == name;
      UsersKeyedByName(next, lines[1..]);
      assert UsersAfter(users, lines) == UsersAfter(next, lines[1..]);
    }
  }

  /**
   * Logging in after loading a user file into an empty store succeeds exactly when the last
   * line naming the user carries exactly the given password.
   */
  lemma LoginAfterLoad(lines: seq<string>, name: string, password: string)
    ensures CanLogin(UsersAfter(map[], lines), name, password)
        <==> LastLineFor(lines, name).Some?
             && ParseUserLine(lines[LastLineFor(lines, name).value]).password == password
  {
    UsersAfterLookup(map[], lines, name);
  }
}
