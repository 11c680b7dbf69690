/** Batch ingestion of car records (src/services/dataIngestion.js). The
    records are walked in order; one whose (make, model, year) is already
    in the store is skipped, any other becomes a new car with its filth
    score and a description and is saved. The store is an in-memory
    sequence of cars; reading and parsing the bulk file is the input
    `source`; the adjective draws of the run are the parameter `draws`
    (the k-th car the run creates gets `draws(k)`). */
module DataIngestion {
  import opened Wrappers
  import opened Text
  import opened Models
  import opened FilthFactor
  import opened ContentGenerator

  /** The bulk source once read and parsed: its records, or the message of
      the error that reading or parsing threw. */
  datatype Source = Records(records: seq<CarRecord>) | Unreadable(cause: string)

  datatype Counts = Counts(processed: nat, skipped: nat)

  const ErrorPrefix: string := "Error ingesting mock data: "

  /** Some stored car has the record's (make, model, year): what
      `Car.findOne({make, model, year})` finds. */
  predicate Listed(cars: seq<Car>, r: CarRecord) {
    exists i | 0 <= i < |cars| :: SameListing(cars[i], r)
  }

  /** No two stored cars share a (make, model, year). */
  predicate NoDuplicateListings(cars: seq<Car>) {
    forall i, j | 0 <= i < j < |cars| :: Key(cars[i]) != Key(cars[j])
  }

  /** The schema accepts the car made from this record. */
  predicate StorableRecord(r: CarRecord) {
    r.make != "" && r.model != ""
  }

  /** The car created for a record that is not yet stored. */
  function NewCar(r: CarRecord, pick: AdjIndex): (car: Car)
    ensures SameListing(car, r) && Key(car) == r
    ensures Storable(car) <==> StorableRecord(r)
    ensures car.filthScore == Some(CalculateFilthFactor(r))
    ensures car.description == Some(GenerateDescription(Some(car.(description := None)), pick))
  {
    var car := Car(r.make, r.model, r.year, Some(CalculateFilthFactor(r)), None);
    car.(description := Some(GenerateDescription(Some(car), pick)))
  }

  /** An ingested car's description always shows its score in decimal: the
      score is never 0, so the "unknown" fallback is never taken. */
  lemma NewCarDescriptionShowsScore(r: CarRecord, pick: AdjIndex)
    ensures var car := NewCar(r, pick);
      && car.description.Some?
      && Contains(car.description.value, IntToString(CalculateFilthFactor(r)))
  {
    var car := NewCar(r, pick);
    ScoreRange(r);
    ScoreShown(car.(description := None), pick);
  }

  /** The state of a run: the store, the counters, and the message of a
      save that failed (after which nothing more happens). */
  datatype Run = Run(cars: seq<Car>, counts: Counts, fault: Option<string>)

  /** One turn of the loop. */
  function Step(run: Run, r: CarRecord, draws: nat -> AdjIndex): (next: Run)
    ensures run.fault.Some? ==> next == run
    ensures run.fault.None? ==>
      (next.counts.skipped == run.counts.skipped + 1 <==> Listed(run.cars, r))
    ensures run.fault.None? && Listed(run.cars, r) ==>
      next.cars == run.cars && next.counts.processed == run.counts.processed && next.fault.None?
    ensures run.fault.None? && !Listed(run.cars, r) ==>
      var car := NewCar(r, draws(run.counts.processed));
      && next.counts.skipped == run.counts.skipped
      && (Storable(car) ==>
            next == Run(run.cars + [car], run.counts.(processed := run.counts.processed + 1), None))
      && (!Storable(car) ==> next == run.(fault := Some(ValidationMessage(car))))
  {
    if run.fault.Some? then run
    else if Listed(run.cars, r) then run.(counts := run.counts.(skipped := run.counts.skipped + 1))
    else
      var car := NewCar(r, draws(run.counts.processed));
      if !Storable(car) then run.(fault := Some(ValidationMessage(car)))
      else Run(run.cars + [car], run.counts.(processed := run.counts.processed + 1), None)
  }

  /** The run over the records, in order, starting from a store. */
  function Ingested(store: seq<Car>, records: seq<CarRecord>, draws: nat -> AdjIndex): (run: Run)
    ensures |run.cars| == |store| + run.counts.processed
    ensures run.fault.None? ==> run.counts.processed + run.counts.skipped == |records|
    ensures run.fault.Some? ==> run.counts.processed + run.counts.skipped < |records|
    decreases |records|
  {
    if records == [] then Run(store, Counts(0, 0), None)
    else Step(Ingested(store, records[..|records| - 1], draws), records[|records| - 1], draws)
  }

  /** A run only appends: the store it starts from stays a prefix. */
  lemma {:induction false} IngestedGrows(store: seq<Car>, records: seq<CarRecord>, draws: nat -> AdjIndex)
    ensures store <= Ingested(store, records, draws).cars
    decreases |records|
  {
    if records != [] {
      IngestedGrows(store, records[..|records| - 1], draws);
    }
  }

  /** What a call yields: the value it resolves to or the error it throws,
      and the store it leaves behind. */
  datatype Ingestion = Ingestion(result: Result<Counts, string>, cars: seq<Car>)

  /** The whole operation, as a function of the store it starts from. */
  function IngestionOf(store: seq<Car>, source: Source, draws: nat -> AdjIndex): (out: Ingestion)
    ensures source.Unreadable? ==> out == Ingestion(Failure(ErrorPrefix + source.cause), store)
    ensures out.result.Failure? ==> IsPrefix(ErrorPrefix, out.result.error)
    ensures store <= out.cars
    ensures out.result.Success? ==>
      && source.Records?
      && out.result.value.processed + out.result.value.skipped == |source.records|
      && |out.cars| == |store| + out.result.value.processed
  {
    match source
    case Unreadable(cause) => Ingestion(Failure(ErrorPrefix + cause), store)
    case Records(records) =>
      IngestedGrows(store, records, draws);
      var run := Ingested(store, records, draws);
      if run.fault.Some? then Ingestion(Failure(ErrorPrefix + run.fault.value), run.cars)
      else Ingestion(Success(run.counts), run.cars)
  }

  /** The car collection, updated in place when a car is saved. */
  class CarStore {
    var cars: seq<Car>

    constructor (initial: seq<Car>)
      ensures cars == initial
    {
      cars := initial;
    }

    /** Looks up a stored car with this make, model and year. */
    method FindOne(make: string, model: string, year: int) returns (existing: Option<Car>)
      ensures existing.Some? <==> Listed(cars, CarRecord(make, model, year))
      ensures existing.Some? ==> existing.value in cars && SameListing(existing.value, CarRecord(make, model, year))
    {
      var r := CarRecord(make, model, year);
      if exists i | 0 <= i < |cars| :: SameListing(cars[i], r) {
        var i :| 0 <= i < |cars| && SameListing(cars[i], r);
        existing := Some(cars[i]);
      } else {
        existing := None;
      }
    }

    /** Saving a car: validates it against the schema, then appends it. */
    method Save(car: Car) returns (saved: Outcome<string>)
      modifies this
      ensures Storable(car) ==> saved == Pass && cars == old(cars) + [car]
      ensures !Storable(car) ==> saved == Fail(ValidationMessage(car)) && cars == old(cars)
    {
      if Storable(car) {
        cars := cars + [car];
        saved := Pass;
      } else {
        saved := Fail(ValidationMessage(car));
      }
    }
  }

  /** The car made for a record not yet stored: its score first, then the
      description generated from the car that carries it. */
  method PrepareCar(carData: CarRecord, pick: AdjIndex) returns (car: Car)
    ensures car == NewCar(carData, pick)
  {
    var filthScore := CalculateFilthFactor(carData);
    car := Car(carData.make, carData.model, carData.year, Some(filthScore), None);
    car := car.(description := Some(GenerateDescription(Some(car), pick)));
  }

  /** The ingestion run against a store. */
  method IngestMockData(store: CarStore, source: Source, draws: nat -> AdjIndex) returns (result: Result<Counts, string>)
    modifies store
    ensures IngestionOf(old(store.cars), source, draws) == Ingestion(result, store.cars)
  {
    if source.Unreadable? {
      return Failure(ErrorPrefix + source.cause);
    }
    var carsData := source.records;
    ghost var initial := store.cars;
    ghost var run := Run(initial, Counts(0, 0), None);
    var processed, skipped := 0, 0;
    for i := 0 to |carsData|
      invariant run == Ingested(initial, carsData[..i], draws)
      invariant run.fault.None? && run.cars == store.cars
      invariant run.counts == Counts(processed, skipped)
    {
      var carData := carsData[i];
      IngestedUnfold(initial, carsData, draws, i);
      run := Step(run, carData, draws);
      var existingCar := store.FindOne(carData.make, carData.model, carData.year);
      if existingCar.Some? {
        skipped := skipped + 1;
        continue;
      }
      var car := PrepareCar(carData, draws(processed));
      var saved := store.Save(car);
      if saved.Fail? {
        result := Failure(ErrorPrefix + saved.error);
        assert run.fault.Some?;
        HaltedIngestion(initial, carsData, draws, i + 1, run, result);
        return;
      }
      processed := processed + 1;
    }
    assert carsData[..|carsData|] == carsData;
    result := Success(Counts(processed, skipped));
  }

  /** A run halted by a failed save reports that failure, with the cars
      saved before it. */
  lemma HaltedIngestion(initial: seq<Car>, records: seq<CarRecord>, draws: nat -> AdjIndex, k: nat, run: Run, result: Result<Counts, string>)
    requires k <= |records|
    requires run == Ingested(initial, records[..k], draws)
    requires run.fault.Some? && result == Failure(ErrorPrefix + run.fault.value)
    ensures IngestionOf(initial, Records(records), draws) == Ingestion(result, run.cars)
  {
    FaultPersists(initial, records, draws, k, |records|);
    assert records[..|records|] == records;
  }

  /** The run over one more record is one more Step. */
  lemma IngestedUnfold(store: seq<Car>, records: seq<CarRecord>, draws: nat -> AdjIndex, i: nat)
    requires i < |records|
    ensures Ingested(store, records[..i + 1], draws) == Step(Ingested(store, records[..i], draws), records[i], draws)
  {
    assert records[..i + 1][..i] == records[..i];
  }

  /** Once a save has failed, the remaining records change nothing. */
  lemma {:induction false} FaultPersists(store: seq<Car>, records: seq<CarRecord>, draws: nat -> AdjIndex, k: nat, j: nat)
    requires k <= j <= |records|
    requires Ingested(store, records[..k], draws).fault.Some?
    ensures Ingested(store, records[..j], draws) == Ingested(store, records[..k], draws)
    decreases j
  {
    if j > k {
      var halted := Ingested(store, records[..k], draws);
      calc {
        Ingested(store, records[..j], draws);
        == { IngestedUnfold(store, records, draws, j - 1); }
        Step(Ingested(store, records[..j - 1], draws), records[j - 1], draws);
        == { FaultPersists(store, records, draws, k, j - 1); }
        Step(halted, records[j - 1], draws);
        == // a run that has failed takes no further step
        halted;
      }
    }
  }

  /** The records, in order, whose (make, model, year) neither the store
      nor an earlier record holds: those a run should add. */
  function Fresh(store: seq<Car>, records: seq<CarRecord>): (added: seq<CarRecord>)
    ensures |added| <= |records|
    decreases |records|
  {
    if records == [] then []
    else
      var earlier, r := records[..|records| - 1], records[|records| - 1];
      if Listed(store, r) || r in earlier then Fresh(store, earlier) else Fresh(store, earlier) + [r]
  }

  /** The cars made from the added records; the k-th uses the k-th draw. */
  function NewCars(added: seq<CarRecord>, draws: nat -> AdjIndex): (cars: seq<Car>)
    ensures |cars| == |added|
    ensures forall k | 0 <= k < |added| :: cars[k] == NewCar(added[k], draws(k))
  {
    seq(|added|, k requires 0 <= k < |added| => NewCar(added[k], draws(k)))
  }

  /** The records added over one more record. */
  lemma FreshUnfold(store: seq<Car>, earlier: seq<CarRecord>, r: CarRecord)
    ensures Fresh(store, earlier + [r]) ==
      if Listed(store, r) || r in earlier then Fresh(store, earlier) else Fresh(store, earlier) + [r]
  {
    assert (earlier + [r])[..|earlier|] == earlier;
  }

  /** A run over one more record is one more Step. */
  lemma IngestedUnfoldLast(store: seq<Car>, earlier: seq<CarRecord>, r: CarRecord, draws: nat -> AdjIndex)
    ensures Ingested(store, earlier + [r], draws) == Step(Ingested(store, earlier, draws), r, draws)
  {
    assert (earlier + [r])[..|earlier|] == earlier;
  }

  lemma NewCarsAppend(added: seq<CarRecord>, r: CarRecord, draws: nat -> AdjIndex)
    ensures NewCars(added + [r], draws) == NewCars(added, draws) + [NewCar(r, draws(|added|))]
  {
  }

  lemma ListedAppend(cars: seq<Car>, car: Car, x: CarRecord)
    ensures Listed(cars + [car], x) <==> Listed(cars, x) || SameListing(car, x)
  {
    if Listed(cars + [car], x) && !SameListing(car, x) {
      var i :| 0 <= i < |cars| + 1 && SameListing((cars + [car])[i], x);
      assert SameListing(cars[i], x);
    }
    if Listed(cars, x) {
      var i :| 0 <= i < |cars| && SameListing(cars[i], x);
      assert SameListing((cars + [car])[i], x);
    }
    if SameListing(car, x) {
      assert SameListing((cars + [car])[|cars|], x);
    }
  }

  /** A run described by the records it adds (see IngestedCharacterized). */
  ghost predicate Characterized(store: seq<Car>, records: seq<CarRecord>, draws: nat -> AdjIndex) {
    Describes(store, records, Ingested(store, records, draws), Fresh(store, records), draws)
  }

  /** The run fails exactly when an added record cannot be stored; otherwise
      it appends the cars of the added records and lists every record. */
  ghost predicate Describes(store: seq<Car>, records: seq<CarRecord>, run: Run, added: seq<CarRecord>, draws: nat -> AdjIndex) {
    && (run.fault.None? <==> forall k | 0 <= k < |added| :: StorableRecord(added[k]))
    && (run.fault.None? ==>
          && run.cars == store + NewCars(added, draws)
          && run.counts.processed == |added|
          && run.counts.processed + run.counts.skipped == |records|
          && forall x :: Listed(run.cars, x) <==> Listed(store, x) || x in records)
  }

  lemma CharacterizedAfterSkip(store: seq<Car>, earlier: seq<CarRecord>, r: CarRecord, draws: nat -> AdjIndex)
    requires Characterized(store, earlier, draws)
    requires Ingested(store, earlier, draws).fault.None?
    requires Listed(Ingested(store, earlier, draws).cars, r)
    ensures Characterized(store, earlier + [r], draws)
  {
    IngestedUnfoldLast(store, earlier, r, draws);
    FreshUnfold(store, earlier, r);
    forall x ensures x in earlier + [r] <==> x in earlier || x == r { }
  }

  lemma CharacterizedAfterSave(store: seq<Car>, earlier: seq<CarRecord>, r: CarRecord, draws: nat -> AdjIndex)
    requires Characterized(store, earlier, draws)
    requires Ingested(store, earlier, draws).fault.None?
    requires !Listed(Ingested(store, earlier, draws).cars, r)
    requires StorableRecord(r)
    ensures Characterized(store, earlier + [r], draws)
  {
    var run, addedBefore := Ingested(store, earlier, draws), Fresh(store, earlier);
    assert Listed(run.cars, r) <==> Listed(store, r) || r in earlier;
    FreshUnfold(store, earlier, r);
    IngestedUnfoldLast(store, earlier, r, draws);
    SaveDescribed(store, earlier, r, draws, run, addedBefore);
  }

  /** One saved record keeps a run described, the record added at the end. */
  lemma SaveDescribed(store: seq<Car>, earlier: seq<CarRecord>, r: CarRecord, draws: nat -> AdjIndex,
                      run: Run, addedBefore: seq<CarRecord>)
    requires Describes(store, earlier, run, addedBefore, draws)
    requires run.fault.None?
    requires StorableRecord(r)
    ensures Describes(store, earlier + [r],
      Run(run.cars + [NewCar(r, draws(|addedBefore|))], Counts(|addedBefore| + 1, run.counts.skipped), None),
      addedBefore + [r], draws)
  {
    var added := addedBefore + [r];
    NewCarsAppend(addedBefore, r, draws);
    assert forall k | 0 <= k < |added| :: StorableRecord(added[k]);
    ListedAfterSave(store, run.cars, earlier, r, draws(|addedBefore|));
  }

  /** Saving the car of a record lists exactly that record in addition. */
  lemma ListedAfterSave(store: seq<Car>, cars: seq<Car>, earlier: seq<CarRecord>, r: CarRecord, pick: AdjIndex)
    requires forall x :: Listed(cars, x) <==> Listed(store, x) || x in earlier
    ensures forall x :: Listed(cars + [NewCar(r, pick)], x) <==> Listed(store, x) || x in earlier + [r]
  {
    var car := NewCar(r, pick);
    forall x ensures Listed(cars + [car], x) <==> Listed(store, x) || x in earlier + [r] {
      ListedAppend(cars, car, x);
      assert SameListing(car, x) <==> x == r;
      assert x in earlier + [r] <==> x in earlier || x == r;
    }
  }

  lemma CharacterizedAfterRejection(store: seq<Car>, earlier: seq<CarRecord>, r: CarRecord, draws: nat -> AdjIndex)
    requires Characterized(store, earlier, draws)
    requires Ingested(store, earlier, draws).fault.None?
    requires !Listed(Ingested(store, earlier, draws).cars, r)
    requires !StorableRecord(r)
    ensures Characterized(store, earlier + [r], draws)
  {
    IngestedUnfoldLast(store, earlier, r, draws);
    FreshUnfold(store, earlier, r);
    var added := Fresh(store, earlier + [r]);
    assert !StorableRecord(added[|added| - 1]);
  }

  lemma CharacterizedAfterFault(store: seq<Car>, earlier: seq<CarRecord>, r: CarRecord, draws: nat -> AdjIndex)
    requires Characterized(store, earlier, draws)
    requires Ingested(store, earlier, draws).fault.Some?
    ensures Characterized(store, earlier + [r], draws)
  {
    IngestedUnfoldLast(store, earlier, r, draws);
    FreshUnfold(store, earlier, r);
    var addedBefore := Fresh(store, earlier);
    var k :| 0 <= k < |addedBefore| && !StorableRecord(addedBefore[k]);
    assert Fresh(store, earlier + [r])[k] == addedBefore[k];
  }

  /** What a run does, stated without the loop: it fails exactly when an
      added record has an empty make or model; otherwise it appends the
      cars of the added records in order, counts them as processed and
      every other record as skipped, and afterwards a triple is in the
      store exactly when it was before or is among the records. */
  lemma {:induction false} IngestedCharacterized(store: seq<Car>, records: seq<CarRecord>, draws: nat -> AdjIndex)
    ensures Characterized(store, records, draws)
    decreases |records|
  {
    if records != [] {
      var earlier, r := records[..|records| - 1], records[|records| - 1];
      assert records == earlier + [r];
      IngestedCharacterized(store, earlier, draws);
      var run := Ingested(store, earlier, draws);
      if run.fault.Some? {
        CharacterizedAfterFault(store, earlier, r, draws);
      } else if Listed(run.cars, r) {
        CharacterizedAfterSkip(store, earlier, r, draws);
      } else if StorableRecord(r) {
        CharacterizedAfterSave(store, earlier, r, draws);
      } else {
        CharacterizedAfterRejection(store, earlier, r, draws);
      }
    }
  }

  /** Every added record comes from the input, none is already stored, and
      no two are alike. */
  lemma {:induction false} FreshAreNewAndDistinct(store: seq<Car>, records: seq<CarRecord>)
    ensures var added := Fresh(store, records);
      && (forall k | 0 <= k < |added| :: added[k] in records && !Listed(store, added[k]))
      && (forall k, l | 0 <= k < l < |added| :: added[k] != added[l])
    decreases |records|
  {
    if records != [] {
      var earlier, r := records[..|records| - 1], records[|records| - 1];
      assert records == earlier + [r];
      FreshUnfold(store, earlier, r);
      FreshAreNewAndDistinct(store, earlier);
      assert forall x :: x in earlier ==> x in records;
    }
  }

  /** When the store already holds every record's triple, nothing is
      added. */
  lemma {:induction false} NothingFreshWhenAllListed(store: seq<Car>, records: seq<CarRecord>)
    requires forall x | x in records :: Listed(store, x)
    ensures Fresh(store, records) == []
    decreases |records|
  {
    if records != [] {
      var earlier := records[..|records| - 1];
      assert forall x :: x in earlier ==> x in records;
      NothingFreshWhenAllListed(store, earlier);
    }
  }

  /** A record is skipped exactly when, at the moment it is checked, the
      store holds its triple, whether from before the run or from an
      earlier record of the same batch. */
  lemma SkippedIffListedWhenChecked(store: seq<Car>, records: seq<CarRecord>, draws: nat -> AdjIndex, i: nat)
    requires i < |records|
    requires Ingested(store, records[..i], draws).fault.None?
    ensures var before, after := Ingested(store, records[..i], draws), Ingested(store, records[..i + 1], draws);
      && (after.counts.skipped == before.counts.skipped + 1 <==> Listed(before.cars, records[i]))
      && (Listed(before.cars, records[i]) <==> Listed(store, records[i]) || records[i] in records[..i])
  {
    IngestedUnfold(store, records, draws, i);
    IngestedCharacterized(store, records[..i], draws);
  }

  /** A successful run leaves the old store followed by the cars of the
      added records, and holds every input triple. */
  lemma SuccessLayout(store: seq<Car>, records: seq<CarRecord>, draws: nat -> AdjIndex)
    requires IngestionOf(store, Records(records), draws).result.Success?
    ensures var out := IngestionOf(store, Records(records), draws);
      && out.cars == store + NewCars(Fresh(store, records), draws)
      && out.result.value == Counts(|Fresh(store, records)|, |records| - |Fresh(store, records)|)
      && forall x | x in records :: Listed(out.cars, x)
  {
    IngestedCharacterized(store, records, draws);
  }

  lemma NewCarAt(store: seq<Car>, added: seq<CarRecord>, draws: nat -> AdjIndex, k: nat)
    requires |store| <= k < |store| + |added|
    ensures (store + NewCars(added, draws))[k] == NewCar(added[k - |store|], draws(k - |store|))
    ensures Key((store + NewCars(added, draws))[k]) == added[k - |store|]
  {
  }

  /** After a successful run every input triple is in the store, every new
      car has its record's make, model and year, its filth score and its
      description, and the store is the old one with the new cars after
      it. */
  lemma SuccessfulRun(store: seq<Car>, records: seq<CarRecord>, draws: nat -> AdjIndex)
    requires IngestionOf(store, Records(records), draws).result.Success?
    ensures var out := IngestionOf(store, Records(records), draws);
      && (forall x | x in records :: Listed(out.cars, x))
      && out.cars[..|store|] == store
      && (forall k | |store| <= k < |out.cars| ::
            && Key(out.cars[k]) in records
            && out.cars[k].filthScore == Some(CalculateFilthFactor(Key(out.cars[k])))
            && out.cars[k] == NewCar(Key(out.cars[k]), draws(k - |store|)))
  {
    var out, added := IngestionOf(store, Records(records), draws), Fresh(store, records);
    SuccessLayout(store, records, draws);
    FreshAreNewAndDistinct(store, records);
    forall k | |store| <= k < |out.cars|
      ensures Key(out.cars[k]) in records
      ensures out.cars[k] == NewCar(Key(out.cars[k]), draws(k - |store|))
    {
      NewCarAt(store, added, draws, k);
    }
  }

  /** Ingesting the same records again adds nothing and skips them all,
      whatever the adjective draws. */
  lemma RerunSkipsAll(store: seq<Car>, records: seq<CarRecord>, draws: nat -> AdjIndex, redraws: nat -> AdjIndex)
    requires IngestionOf(store, Records(records), draws).result.Success?
    ensures var stored := IngestionOf(store, Records(records), draws).cars;
      IngestionOf(stored, Records(records), redraws) == Ingestion(Success(Counts(0, |records|)), stored)
  {
    var stored := IngestionOf(store, Records(records), draws).cars;
    SuccessfulRun(store, records, draws);
    NothingFreshWhenAllListed(stored, records);
    IngestedCharacterized(stored, records, redraws);
    assert stored + NewCars([], redraws) == stored;
  }

  /** A store without duplicate triples stays so: in-batch repeats are
      caught because the first copy is saved before the repeat is checked. */
  lemma NoDuplicatesKept(store: seq<Car>, records: seq<CarRecord>, draws: nat -> AdjIndex)
    requires NoDuplicateListings(store)
    requires IngestionOf(store, Records(records), draws).result.Success?
    ensures NoDuplicateListings(IngestionOf(store, Records(records), draws).cars)
  {
    var cars := IngestionOf(store, Records(records), draws).cars;
    var added := Fresh(store, records);
    SuccessLayout(store, records, draws);
    FreshAreNewAndDistinct(store, records);
    forall i, j | 0 <= i < j < |cars| ensures Key(cars[i]) != Key(cars[j]) {
      if j >= |store| {
        NewCarAt(store, added, draws, j);
        if i >= |store| {
          NewCarAt(store, added, draws, i);
        } else {
          assert cars[i] == store[i];
          assert !SameListing(store[i], added[j - |store|]);
        }
      } else {
        assert cars[i] == store[i] && cars[j] == store[j];
      }
    }
  }

  /** Four records with one repeat: the first one again at the end. */
  const SampleBatch: seq<CarRecord> := [
    CarRecord("Toyota", "Corolla", 1998),
    CarRecord("Honda", "Civic", 2005),
    CarRecord("Ford", "Mustang", 2020),
    CarRecord("Toyota", "Corolla", 1998)]

  /** Into an empty store the sample batch adds its first three records. */
  lemma SampleBatchAdds()
    ensures Fresh([], SampleBatch) == SampleBatch[..3]
  {
    var b := SampleBatch;
    assert b[..1][..0] == [];
    assert Fresh([], b[..1]) == [b[0]];
    assert b[..2][..1] == b[..1];
    assert Fresh([], b[..2]) == [b[0], b[1]];
    assert b[..3][..2] == b[..2];
    assert Fresh([], b[..3]) == [b[0], b[1], b[2]];
    assert b[..3] == b[..4][..3] && b == b[..4];
    assert b[3] in b[..3];
  }

  /** The sample batch into an empty store: three cars processed and one
      skipped. */
  lemma SampleFirstRun(draws: nat -> AdjIndex)
    ensures IngestionOf([], Records(SampleBatch), draws).result == Success(Counts(3, 1))
  {
    var added := SampleBatch[..3];
    SampleBatchAdds();
    assert forall k | 0 <= k < |added| :: StorableRecord(added[k]);
    IngestedCharacterized([], SampleBatch, draws);
  }

  /** The sample batch into an empty store: three cars processed and one
      skipped; run again, none processed and four skipped. */
  lemma FourRecordBatch(draws: nat -> AdjIndex, redraws: nat -> AdjIndex)
    ensures var first := IngestionOf([], Records(SampleBatch), draws);
      && first.result == Success(Counts(3, 1))
      && IngestionOf(first.cars, Records(SampleBatch), redraws).result == Success(Counts(0, 4))
  {
    SampleFirstRun(draws);
    RerunSkipsAll([], SampleBatch, draws, redraws);
  }
}
