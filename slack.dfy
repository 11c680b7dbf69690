/** The mocked chat integration (src/services/slack.js). Posting candidates
    only logs a header and one line per car and returns a fixed-shape
    answer; handling feedback fills in defaults with JavaScript's `||`.
    Console output is returned as a sequence of lines and the clock is the
    parameter `now`. */
module Slack {
  import opened Wrappers
  import opened Text
  import opened Models

  const DefaultChannel: string := "car-curation"
  const DefaultNotes: string := "No additional notes provided"
  const LogTag: string := "[SLACK MOCK] "

  /** The channel named by the environment; an unset or empty variable falls
      back to the default. */
  function Channel(env: Option<string>): (channel: string)
    ensures channel != ""
    ensures env.Some? && env.value != "" ==> channel == env.value
    ensures env.None? || env.value == "" ==> channel == DefaultChannel
  {
    if env.Some? && env.value != "" then env.value else DefaultChannel
  }

  datatype SlackResponse = SlackResponse(success: bool, message: string, timestamp: string)

  /** What a call returns together with the lines it writes to the console. */
  datatype Posted = Posted(response: SlackResponse, logs: seq<string>)

  /** A score as a log line prints it: a null score prints as `null`. */
  function ScoreRendering(filthScore: Option<int>): string {
    if filthScore.Some? then IntToString(filthScore.value) else "null"
  }

  function HeaderLine(count: nat, channel: string): string {
    LogTag + "Posting " + NatToString(count) + " cars to Slack channel: " + channel
  }

  function CarLine(car: Car): string {
    LogTag + "Car: " + IntToString(car.year) + " " + car.make + " " + car.model
      + " (Filth Score: " + ScoreRendering(car.filthScore) + ")"
  }

  function PostedMessage(count: nat): string {
    "Posted " + NatToString(count) + " cars to Slack for curation"
  }

  function PostCandidatesToSlack(cars: seq<Car>, channelEnv: Option<string>, now: string): (p: Posted)
    ensures p.response.success
    ensures p.response.message == PostedMessage(|cars|)
    ensures p.response.timestamp == now
    ensures |p.logs| == 1 + |cars|
    ensures p.logs[0] == HeaderLine(|cars|, Channel(channelEnv))
    ensures forall i :: 0 <= i < |cars| ==> p.logs[i + 1] == CarLine(cars[i])
  {
    var carLines := seq(|cars|, i requires 0 <= i < |cars| => CarLine(cars[i]));
    Posted(SlackResponse(true, PostedMessage(|cars|), now), [HeaderLine(|cars|, Channel(channelEnv))] + carLines)
  }

  /** The count is recovered from the message, so lists of different
      lengths are never reported alike. */
  lemma MessageGivesCount(m: nat, n: nat)
    requires PostedMessage(m) == PostedMessage(n)
    ensures m == n
  {
    var a, b := NatToString(m), NatToString(n);
    var tail := " cars to Slack for curation";
    assert |a| == |b|;
    assert a == PostedMessage(m)[7..7 + |a|];
    assert b == PostedMessage(n)[7..7 + |b|];
    NatRoundTrip(m);
    NatRoundTrip(n);
  }

  /** The two-car example: a success answer and three console lines. */
  lemma TwoCarExample(now: string)
    ensures var cars := [
        Car("Toyota", "Corolla", 2020, Some(15), None),
        Car("Honda", "Civic", 1995, Some(35), None)];
      var p := PostCandidatesToSlack(cars, None, now);
      p.response.success && |p.logs| == 3 && p.response.message == "Posted 2 cars to Slack for curation"
  {
    assert NatToString(2) == "2";
    assert PostedMessage(2) == "Posted 2 cars to Slack for curation";
  }

  /** A feedback payload as the chat service delivers it; a missing or null
      field is None. */
  datatype FeedbackPayload = FeedbackPayload(carIds: Option<seq<string>>, notes: Option<string>)

  datatype ProcessedFeedback = ProcessedFeedback(selectedCarIds: seq<string>, feedbackNotes: string, processedAt: string)

  datatype Handled = Handled(feedback: ProcessedFeedback, logs: seq<string>)

  /** The payload's car ids, or none when absent; an empty list is kept. */
  function SelectedCarIds(payload: FeedbackPayload): seq<string> {
    if payload.carIds.Some? then payload.carIds.value else []
  }

  /** The payload's notes, or the default when they are absent or empty. */
  function FeedbackNotes(payload: FeedbackPayload): string {
    if payload.notes.Some? && payload.notes.value != "" then payload.notes.value else DefaultNotes
  }

  function HandleSlackFeedback(payload: FeedbackPayload, now: string): (h: Handled)
    ensures payload.carIds.Some? ==> h.feedback.selectedCarIds == payload.carIds.value
    ensures payload.carIds.None? ==> h.feedback.selectedCarIds == []
    ensures payload.notes.Some? && payload.notes.value != "" ==> h.feedback.feedbackNotes == payload.notes.value
    ensures payload.notes.None? || payload.notes.value == "" ==> h.feedback.feedbackNotes == DefaultNotes
    ensures h.feedback.feedbackNotes != ""
    ensures h.feedback.processedAt == now
    ensures |h.logs| == 2
  {
    var selectedCarIds := SelectedCarIds(payload);
    var feedbackNotes := FeedbackNotes(payload);
    Handled(
      ProcessedFeedback(selectedCarIds, feedbackNotes, now),
      [LogTag + "Processing feedback from Slack",
       LogTag + "Selected " + NatToString(|selectedCarIds|) + " cars with notes: \"" + feedbackNotes + "\""])
  }

  /** Processing is a fixed point: a payload made from processed feedback
      is processed into the same feedback. */
  lemma ReprocessingKeepsFeedback(payload: FeedbackPayload, now: string)
    ensures var f := HandleSlackFeedback(payload, now).feedback;
      HandleSlackFeedback(FeedbackPayload(Some(f.selectedCarIds), Some(f.feedbackNotes)), now).feedback == f
  {
  }

  /** The payload examples: given fields are kept, an empty payload gets
      the defaults. */
  lemma PayloadExamples(now: string)
    ensures HandleSlackFeedback(FeedbackPayload(Some(["1", "2", "3"]), Some("These cars look great!")), now).feedback
      == ProcessedFeedback(["1", "2", "3"], "These cars look great!", now)
    ensures HandleSlackFeedback(FeedbackPayload(None, None), now).feedback
      == ProcessedFeedback([], "No additional notes provided", now)
  {
  }
}
