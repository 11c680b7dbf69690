/** The records the services pass around. `Car` follows the Car schema of
    src/models/car.js (make, model, year required; filthScore defaults to
    null) together with the description the services assign to it. */
module Models {
  import opened Wrappers

  /** One `{make, model, year}` object of the bulk ingestion source. */
  datatype CarRecord = CarRecord(make: string, model: string, year: int)

  /** A car listing. `filthScore` is None for null; `description` is None
      until a service assigns one. */
  datatype Car = Car(
    make: string,
    model: string,
    year: int,
    filthScore: Option<int>,
    description: Option<string>)

  /** The schema's `required: true` on a String path rejects the empty
      string, so a car with an empty make or model fails validation when
      saved. */
  predicate Storable(c: Car) {
    c.make != "" && c.model != ""
  }

  /** The (make, model, year) triple that ingestion treats as a car's
      identity. */
  predicate SameListing(c: Car, r: CarRecord) {
    c.make == r.make && c.model == r.model && c.year == r.year
  }

  /** The message the schema validation throws for a car that is not
      Storable: one entry per empty required path, in schema order. */
  function ValidationMessage(c: Car): string
    requires !Storable(c)
  {
    var makeError := "make: Path `make` is required.";
    var modelError := "model: Path `model` is required.";
    "Car validation failed: "
      + (if c.make == "" && c.model == "" then makeError + ", " + modelError
         else if c.make == "" then makeError
         else modelError)
  }

  /** The identity triple of a stored car. */
  function Key(c: Car): CarRecord {
    CarRecord(c.make, c.model, c.year)
  }
}
