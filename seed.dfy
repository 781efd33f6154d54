/** The bulk loader: it empties the `patients` and `owners` tables, then sends
    one `INSERT` per owner and one per patient, in batches of twenty. */
module Seed {
  import opened Text
  import opened Sql

  /** An owner record of the data file, each field as read from JSON. */
  datatype OwnerRecord = OwnerRecord(
    id: Value, cedula: Value, fullName: Value, phone: Value, email: Value, address: Value)

  /** A patient record of the data file. */
  datatype PatientRecord = PatientRecord(
    id: Value, ownerId: Value, name: Value, species: Value, breed: Value,
    ageMonths: Value, weightKg: Value)

  const OwnerColumns: seq<string> := ["id", "cedula", "full_name", "phone", "email", "address"]

  const PatientColumns: seq<string> :=
    ["id", "owner_id", "name", "species", "breed", "age_months", "weight_kg"]

  const BatchSize: nat := 20

  // ---------------------------------------------------------------------
  // Row to statement

  function OwnerArgs(o: OwnerRecord): (args: seq<Value>)
    ensures |args| == 6
  {
    [o.id, o.cedula, o.fullName, o.phone, o.email, o.address]
  }

  function PatientArgs(p: PatientRecord): (args: seq<Value>)
    ensures |args| == 7
  {
    [p.id, p.ownerId, p.name, p.species, p.breed, p.ageMonths, p.weightKg]
  }

  /** The `INSERT INTO owners (...) VALUES (?, ...)` of one owner. */
  function OwnerQuery(o: OwnerRecord): Statement {
    Render(Insert("owners", OwnerColumns, Params(OwnerArgs(o))))
  }

  /** The `INSERT INTO patients (...) VALUES (?, ...)` of one patient. */
  function PatientQuery(p: PatientRecord): Statement {
    Render(Insert("patients", PatientColumns, Params(PatientArgs(p))))
  }

  /** An owner's statement binds its six fields in column order, one per `?`. */
  lemma OwnerQueryBindsSix(o: OwnerRecord)
    ensures OwnerQuery(o).args == [o.id, o.cedula, o.fullName, o.phone, o.email, o.address]
    ensures Count(OwnerQuery(o).sql, '?') == 6
  {
    assert forall i :: 0 <= i < |OwnerColumns| ==> '?' !in OwnerColumns[i];
    ParamsInsertAligned("owners", OwnerColumns, OwnerArgs(o));
  }

  /** A patient's statement binds its seven fields in column order, one per `?`. */
  lemma PatientQueryBindsSeven(p: PatientRecord)
    ensures PatientQuery(p).args == [p.id, p.ownerId, p.name, p.species, p.breed, p.ageMonths, p.weightKg]
    ensures Count(PatientQuery(p).sql, '?') == 7
  {
    assert forall i :: 0 <= i < |PatientColumns| ==> '?' !in PatientColumns[i];
    ParamsInsertAligned("patients", PatientColumns, PatientArgs(p));
  }

  function OwnerQueries(owners: seq<OwnerRecord>): (qs: seq<Statement>)
    ensures |qs| == |owners| && forall i :: 0 <= i < |owners| ==> qs[i] == OwnerQuery(owners[i])
  {
    seq(|owners|, i requires 0 <= i < |owners| => OwnerQuery(owners[i]))
  }

  function PatientQueries(patients: seq<PatientRecord>): (qs: seq<Statement>)
    ensures |qs| == |patients| && forall i :: 0 <= i < |patients| ==> qs[i] == PatientQuery(patients[i])
  {
    seq(|patients|, i requires 0 <= i < |patients| => PatientQuery(patients[i]))
  }

  // ---------------------------------------------------------------------
  // Batches

  /** The batches one after the other. */
  function Flatten<T>(batches: seq<seq<T>>): seq<T> {
    if batches == [] then [] else Flatten(batches[..|batches| - 1]) + batches[|batches| - 1]
  }

  function Min(a: int, b: int): int {
    if a <= b then a else b
  }

  /** The number of batches, `ceil(n / 20)`. */
  function BatchCount(n: nat): nat {
    (n + BatchSize - 1) / BatchSize
  }

  /** `for (let i = 0; i < xs.length; i += 20) batch(xs.slice(i, i + 20))`:
      the batches in the order they are sent. Together they are the whole
      list in order; none is empty or longer than twenty, and only the last
      may be shorter. */
  method Batches<T>(xs: seq<T>) returns (batches: seq<seq<T>>)
    ensures Flatten(batches) == xs
    ensures |batches| == BatchCount(|xs|)
    ensures forall k :: 0 <= k < |batches| ==> 0 < |batches[k]| <= BatchSize
    ensures forall k :: 0 <= k < |batches| - 1 ==> |batches[k]| == BatchSize
  {
    batches := [];
    var i := 0;
    while i < |xs|
      invariant i == BatchSize * |batches|
      invariant i <= |xs| + BatchSize - 1
      invariant Flatten(batches) == xs[..Min(i, |xs|)]
      invariant forall k :: 0 <= k < |batches| ==> 0 < |batches[k]| <= BatchSize
      invariant forall k :: 0 <= k < |batches| && BatchSize * (k + 1) <= i && i <= |xs| ==> |batches[k]| == BatchSize
      invariant forall k :: 0 <= k < |batches| - 1 ==> |batches[k]| == BatchSize
    {
      var batch := xs[i..Min(i + BatchSize, |xs|)];
      assert Flatten(batches + [batch]) == Flatten(batches) + batch;
      assert xs[..Min(i + BatchSize, |xs|)] == xs[..i] + batch;
      batches := batches + [batch];
      i := i + BatchSize;
    }
    CountOfBatches(|xs|, |batches|);
  }

  /** `k` multiples of twenty that first reach `n` are `ceil(n / 20)`. */
  lemma CountOfBatches(n: nat, k: nat)
    requires n <= BatchSize * k <= n + BatchSize - 1
    ensures k == BatchCount(n)
  {
  }

  // ---------------------------------------------------------------------
  // The run

  /** One call on the client: a single statement, one whose failure is
      ignored, or a batch. */
  datatype Step = Execute(st: Statement) | TryExecute(st: Statement) | Batch(statements: seq<Statement>)

  const DeletePatients: Statement := Statement("DELETE FROM patients", [])
  const DeleteOwners: Statement := Statement("DELETE FROM owners", [])
  const ResetSequence: Statement :=
    Statement("DELETE FROM sqlite_sequence WHERE name IN ('owners', 'patients')", [])

  /** The statements of the steps, in the order they are sent. */
  function Sent(steps: seq<Step>): seq<Statement> {
    if steps == [] then []
    else
      var last := steps[|steps| - 1];
      Sent(steps[..|steps| - 1]) + (if last.Batch? then last.statements else [last.st])
  }

  lemma {:induction false} SentAppend(a: seq<Step>, b: seq<Step>)
    ensures Sent(a + b) == Sent(a) + Sent(b)
    decreases |b|
  {
    if b == [] {
      assert a + b == a;
    } else {
      var n := |b| - 1;
      assert (a + b)[..|a + b| - 1] == a + b[..n];
      SentAppend(a, b[..n]);
    }
  }

  function BatchSteps(batches: seq<seq<Statement>>): (steps: seq<Step>)
    ensures |steps| == |batches| && forall k :: 0 <= k < |batches| ==> steps[k] == Batch(batches[k])
  {
    seq(|batches|, k requires 0 <= k < |batches| => Batch(batches[k]))
  }

  lemma {:induction false} SentOfBatches(batches: seq<seq<Statement>>)
    ensures Sent(BatchSteps(batches)) == Flatten(batches)
  {
    if batches != [] {
      var n := |batches| - 1;
      assert BatchSteps(batches)[..n] == BatchSteps(batches[..n]);
      SentOfBatches(batches[..n]);
    }
  }

  /** Everything `seed()` sends, in order: the statements clearing both
      tables, patients first, then each owner's insert, then each patient's. */
  function Plan(owners: seq<OwnerRecord>, patients: seq<PatientRecord>): (sent: seq<Statement>)
    ensures |sent| == 3 + |owners| + |patients|
    ensures sent[0] == DeletePatients && sent[1] == DeleteOwners && sent[2] == ResetSequence
    ensures forall i :: 0 <= i < |owners| ==> sent[3 + i] == OwnerQuery(owners[i])
    ensures forall j :: 0 <= j < |patients| ==> sent[3 + |owners| + j] == PatientQuery(patients[j])
  {
    [DeletePatients, DeleteOwners, ResetSequence] + OwnerQueries(owners) + PatientQueries(patients)
  }

  /** Three single calls send their three statements. */
  lemma SentSingles(a: Statement, b: Statement, c: Statement)
    ensures Sent([Execute(a), Execute(b), TryExecute(c)]) == [a, b, c]
  {
    var s := [Execute(a), Execute(b), TryExecute(c)];
    assert s[..2] == [Execute(a), Execute(b)];
    assert [Execute(a), Execute(b)][..1] == [Execute(a)];
    assert [Execute(a)][..0] == [];
    assert Sent([Execute(a)]) == [a];
    assert Sent([Execute(a), Execute(b)]) == [a, b];
  }

  /** `seed()` on a data file that loads: the two deletes, the sequence reset,
      then the owners' batches and the patients' batches. */
  method Run(owners: seq<OwnerRecord>, patients: seq<PatientRecord>) returns (steps: seq<Step>)
    ensures Sent(steps) == Plan(owners, patients)
    ensures |steps| == 3 + BatchCount(|owners|) + BatchCount(|patients|)
    ensures steps[..3] == [Execute(DeletePatients), Execute(DeleteOwners), TryExecute(ResetSequence)]
    ensures forall k :: 3 <= k < |steps| ==> steps[k].Batch? && 0 < |steps[k].statements| <= BatchSize
  {
    var cleanup := [Execute(DeletePatients), Execute(DeleteOwners), TryExecute(ResetSequence)];
    var ownerBatches := Batches(OwnerQueries(owners));
    var patientBatches := Batches(PatientQueries(patients));
    steps := cleanup + BatchSteps(ownerBatches) + BatchSteps(patientBatches);
    SentOfBatches(ownerBatches);
    SentOfBatches(patientBatches);
    SentAppend(cleanup, BatchSteps(ownerBatches));
    SentAppend(cleanup + BatchSteps(ownerBatches), BatchSteps(patientBatches));
    SentSingles(DeletePatients, DeleteOwners, ResetSequence);
    assert Sent(steps) == [DeletePatients, DeleteOwners, ResetSequence] + OwnerQueries(owners) + PatientQueries(patients);
    assert steps[..3] == cleanup;
    forall k | 3 <= k < |steps|
      ensures steps[k].Batch? && 0 < |steps[k].statements| <= BatchSize
    {
      if k < 3 + |ownerBatches| {
        assert steps[k] == Batch(ownerBatches[k - 3]);
      } else {
        assert steps[k] == Batch(patientBatches[k - 3 - |ownerBatches|]);
      }
    }
  }

  /** Every patient whose owner is in the file is inserted after that owner. */
  lemma OwnersBeforeTheirPatients(owners: seq<OwnerRecord>, patients: seq<PatientRecord>, j: nat)
    requires j < |patients|
    requires exists i :: 0 <= i < |owners| && owners[i].id == patients[j].ownerId
    ensures Plan(owners, patients)[3 + |owners| + j] == PatientQuery(patients[j])
    ensures exists i :: (0 <= i < |owners| && owners[i].id == patients[j].ownerId &&
      Plan(owners, patients)[3 + i] == OwnerQuery(owners[i]))
  {
    var i :| 0 <= i < |owners| && owners[i].id == patients[j].ownerId;
    assert Plan(owners, patients)[3 + i] == OwnerQuery(owners[i]);
  }
}
