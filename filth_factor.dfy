/** The filth score of a car (src/services/filthFactor.js): a base of 30
    for cars older than 2000 and of 10 otherwise, plus a constant 5. */
module FilthFactor {
  import opened Models

  const Cutoff: int := 2000
  const OldCarBase: int := 30
  const NewerCarBase: int := 10
  const Offset: int := 5

  function CalculateFilthFactor(carData: CarRecord): (score: int)
    ensures carData.year < 2000 ==> score == 35
    ensures carData.year >= 2000 ==> score == 15
  {
    var baseScore := if carData.year < Cutoff then OldCarBase else NewerCarBase;
    baseScore + Offset
  }

  /** The score takes one of two values, and neither is zero (so it is
      always truthy where JavaScript tests it). */
  lemma ScoreRange(carData: CarRecord)
    ensures CalculateFilthFactor(carData) in {15, 35}
    ensures CalculateFilthFactor(carData) != 0
  {
  }

  /** An older car never scores lower than a newer one. */
  lemma OlderScoresAtLeastAsHigh(older: CarRecord, newer: CarRecord)
    requires older.year <= newer.year
    ensures CalculateFilthFactor(older) >= CalculateFilthFactor(newer)
  {
  }

  /** Only the year is read: make and model do not change the score. */
  lemma OnlyYearMatters(a: CarRecord, b: CarRecord)
    requires a.year == b.year
    ensures CalculateFilthFactor(a) == CalculateFilthFactor(b)
  {
  }

  /** The two sides of the cutoff. */
  lemma Boundary(make: string, model: string)
    ensures CalculateFilthFactor(CarRecord(make, model, 1999)) == 35
    ensures CalculateFilthFactor(CarRecord(make, model, 2000)) == 15
  {
  }
}
