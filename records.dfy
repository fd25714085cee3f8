/**
 * Record bookkeeping from the add and edit routes of app.py, with the web
 * form already parsed into typed values and the clock reading `now` passed
 * in. The stored priority comes from the classifier; the time of death is
 * stamped when a patient becomes "Deceased" and cleared when they are not.
 */
module Records {
  import opened Optional
  import Triage

  /** One row of the patients table. */
  datatype Patient = Patient(
    id: int,
    name: Option<string>,
    hr: int,
    bp: int,
    oxygen: int,
    temp: real,
    priority: string,
    timeOfDeath: Option<string>,
    notes: Option<string>,
    surgeryRequired: bool)

  /** A time of death is on record exactly when the row is "Deceased". */
  predicate DeathRecorded(p: Patient)
  {
    p.timeOfDeath.Some? <==> p.priority == Triage.Deceased
  }

  /** The new row built by the add route; `id` is the store's next key. */
  method AddPatient(id: int, name: Option<string>, hr: int, bp: int, oxygen: int, temp: real,
                    notes: Option<string>, surgeryRequired: bool, now: string)
    returns (p: Patient)
    ensures p.id == id && p.name == name && p.notes == notes && p.surgeryRequired == surgeryRequired
    ensures p.hr == hr && p.bp == bp && p.oxygen == oxygen && p.temp == temp
    ensures p.priority == Triage.Priority(hr, bp, oxygen, temp)
    ensures Triage.NoSigns(hr, bp, oxygen) ==> p.timeOfDeath == Some(now)
    ensures !Triage.NoSigns(hr, bp, oxygen) ==> p.timeOfDeath == None
    ensures DeathRecorded(p)
  {
    var priority := Triage.CalculatePriority(hr, bp, oxygen, temp);
    var timeOfDeath := if priority == Triage.Deceased then Some(now) else None;
    p := Patient(id, name, hr, bp, oxygen, temp, priority, timeOfDeath, notes, surgeryRequired);
  }

  /**
   * The row written back by the edit route. The old time of death is kept
   * while the patient stays "Deceased", stamped with `now` when they become
   * "Deceased", and cleared by any other new priority.
   */
  method EditPatient(patient: Patient, name: Option<string>, hr: int, bp: int, oxygen: int, temp: real,
                     notes: Option<string>, surgeryRequired: bool, now: string)
    returns (p: Patient)
    ensures p.id == patient.id && p.name == name && p.notes == notes && p.surgeryRequired == surgeryRequired
    ensures p.hr == hr && p.bp == bp && p.oxygen == oxygen && p.temp == temp
    ensures p.priority == Triage.Priority(hr, bp, oxygen, temp)
    ensures !Triage.NoSigns(hr, bp, oxygen) ==> p.timeOfDeath == None
    ensures Triage.NoSigns(hr, bp, oxygen) && patient.priority != Triage.Deceased ==> p.timeOfDeath == Some(now)
    ensures Triage.NoSigns(hr, bp, oxygen) && patient.priority == Triage.Deceased ==> p.timeOfDeath == patient.timeOfDeath
    ensures DeathRecorded(patient) ==> DeathRecorded(p)
  {
    var priority := Triage.CalculatePriority(hr, bp, oxygen, temp);

    var timeOfDeath := patient.timeOfDeath;
    if priority == Triage.Deceased && patient.priority != Triage.Deceased {
      timeOfDeath := Some(now);
    } else if priority != Triage.Deceased {
      timeOfDeath := None;
    }

    p := Patient(patient.id, name, hr, bp, oxygen, temp, priority, timeOfDeath, notes, surgeryRequired);
  }
}
