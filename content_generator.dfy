/** Description text for a car (src/services/contentGenerator.js): a fixed
    sentence naming the car, one of seven adjectives and its filth score.
    The random pick `Math.floor(Math.random() * 7)` is the parameter
    `pick`; a null car yields a fixed fallback sentence. */
module ContentGenerator {
  import opened Wrappers
  import opened Text
  import opened Models

  const Adjectives: seq<string> := [
    "remarkable", "stunning", "classic", "elegant", "powerful", "iconic", "impressive"
  ]

  /** An index into Adjectives, as the random pick yields. */
  type AdjIndex = i: int | 0 <= i < 7

  const NoDescription: string := "No description available."
  const Unknown: string := "unknown"

  /** The score as the sentence shows it: a null score and a score of 0 both
      fall back to `unknown`. */
  function ScoreText(filthScore: Option<int>): (t: string)
    ensures filthScore.Some? && filthScore.value != 0 ==> t == IntToString(filthScore.value)
    ensures filthScore.None? || filthScore.value == 0 ==> t == Unknown
  {
    if filthScore.Some? && filthScore.value != 0 then IntToString(filthScore.value) else Unknown
  }

  /** The sentence up to the adjective. */
  function Opening(car: Car): string {
    "The " + (IntToString(car.year) + (" " + (car.make + (" " + (car.model + " is truly a ")))))
  }

  /** The sentence after the adjective. */
  function Closing(car: Car): string {
    " vehicle. With a filth score of " + ScoreText(car.filthScore) + ", it's a must-see for collectors."
  }

  function GenerateDescription(car: Option<Car>, pick: AdjIndex): (text: string)
    ensures car.None? <==> text == NoDescription
    ensures car.Some? ==> text == Opening(car.value) + Adjectives[pick] + Closing(car.value)
    ensures car.Some? ==> |text| > 20
  {
    match car
    case None => NoDescription
    case Some(c) => Opening(c) + Adjectives[pick] + Closing(c)
  }

  /** The opening names the year right after "The ". The opening is nested
      to the right, so each name is found by stepping over the pieces
      before it. */
  lemma OpeningNamesYear(car: Car)
    ensures OccursAt(Opening(car), IntToString(car.year), 4)
  {
    var y := IntToString(car.year);
    var make := car.make + (" " + (car.model + " is truly a "));
    OccursInFront(y, " " + make);
    OccursAfter("The ", y + (" " + make), y, 0);
  }

  /** The opening names the make after the year and a space. */
  lemma OpeningNamesMake(car: Car)
    ensures OccursAt(Opening(car), car.make, |IntToString(car.year)| + 5)
  {
    var y := IntToString(car.year);
    var model := car.model + " is truly a ";
    var make := car.make + (" " + model);
    OccursInFront(car.make, " " + model);
    OccursAfter(" ", make, car.make, 0);
    OccursAfter(y, " " + make, car.make, 1);
    OccursAfter("The ", y + (" " + make), car.make, |y| + 1);
  }

  /** The opening names the model after the make and a space. */
  lemma OpeningNamesModel(car: Car)
    ensures OccursAt(Opening(car), car.model, |IntToString(car.year)| + |car.make| + 6)
  {
    var y := IntToString(car.year);
    var model := car.model + " is truly a ";
    var make := car.make + (" " + model);
    OccursInFront(car.model, " is truly a ");
    OccursAfter(" ", model, car.model, 0);
    OccursAfter(car.make, " " + model, car.model, 1);
    OccursAfter(" ", make, car.model, |car.make| + 1);
    OccursAfter(y, " " + make, car.model, |car.make| + 2);
    OccursAfter("The ", y + (" " + make), car.model, |y| + |car.make| + 2);
  }

  /** Whatever the opening holds, the whole sentence holds. */
  lemma OpeningKept(car: Car, pick: AdjIndex, t: string, k: int)
    requires OccursAt(Opening(car), t, k)
    ensures Contains(GenerateDescription(Some(car), pick), t)
  {
    var o, a, c := Opening(car), Adjectives[pick], Closing(car);
    OccursKept(o, a, t, k);
    OccursKept(o + a, c, t, k);
  }

  /** The description names the car: it holds its year, make and model. */
  lemma DescriptionNamesCar(car: Car, pick: AdjIndex)
    ensures var text := GenerateDescription(Some(car), pick);
      && Contains(text, IntToString(car.year))
      && Contains(text, car.make)
      && Contains(text, car.model)
  {
    var y := IntToString(car.year);
    OpeningNamesYear(car);
    OpeningKept(car, pick, y, 4);
    OpeningNamesMake(car);
    OpeningKept(car, pick, car.make, |y| + 5);
    OpeningNamesModel(car);
    OpeningKept(car, pick, car.model, |y| + |car.make| + 6);
  }

  /** The adjective is one of the seven, and it stands in the text. */
  lemma AdjectiveFromFixedList(car: Car, pick: AdjIndex)
    ensures Adjectives[pick] in Adjectives
    ensures Contains(GenerateDescription(Some(car), pick), Adjectives[pick])
  {
    OccursBetween(Opening(car), Adjectives[pick], Closing(car));
  }

  /** A truthy score appears in decimal; a null or zero score reads
      "unknown". */
  lemma ScoreShown(car: Car, pick: AdjIndex)
    ensures var text := GenerateDescription(Some(car), pick);
      && (car.filthScore.Some? && car.filthScore.value != 0 ==>
            Contains(text, IntToString(car.filthScore.value)))
      && (car.filthScore.None? || car.filthScore.value == 0 ==> Contains(text, Unknown))
  {
    var text := GenerateDescription(Some(car), pick);
    var before := Opening(car) + Adjectives[pick] + " vehicle. With a filth score of ";
    var after := ", it's a must-see for collectors.";
    assert text == before + ScoreText(car.filthScore) + after;
    OccursBetween(before, ScoreText(car.filthScore), after);
  }

  lemma AdjectivesDistinct(i: AdjIndex, j: AdjIndex)
    requires Adjectives[i] == Adjectives[j]
    ensures i == j
  {
  }

  /** Different picks give different sentences for the same car: the text
      determines which adjective was drawn. */
  lemma PickDetermined(car: Car, i: AdjIndex, j: AdjIndex)
    requires GenerateDescription(Some(car), i) == GenerateDescription(Some(car), j)
    ensures i == j
  {
    var p, a, b, q := Opening(car), Adjectives[i], Adjectives[j], Closing(car);
    assert |p + a + q| == |p + b + q|;
    assert a == (p + a + q)[|p|..|p| + |a|];
    assert b == (p + b + q)[|p|..|p| + |b|];
    AdjectivesDistinct(i, j);
  }
}
