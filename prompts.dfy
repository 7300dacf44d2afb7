/** The re-prompt loops: keep reading lines until one is acceptable. The lines the
    user would type are given as a sequence; running out of them is Python's EOFError,
    which aborts the command. */
module Prompts {
  import opened Options
  import opened Text
  import opened Numbers
  import opened Catalog

  /** How an update command ends: the title is unknown, the rating accepted from line
      `at` was stored, or the lines ran out before an acceptable rating. */
  datatype UpdateOutcome = NoSuchMovie | Updated(rating: real, at: nat) | InputExhausted

  /** The year loop of `add_new_movie` accepts this line: not blank, an integer, in [1900, 2025]. */
  predicate YearAccepted(s: string): (b: bool)
    ensures b <==> ParseInt(s).Some? && YearInRange(ParseInt(s).value)
  {
    !IsBlank(s) && ParseInt(s).Some? && YearInRange(ParseInt(s).value)
  }

  /** The rating loops accept this line: a float in [0, 10]. */
  predicate RatingAccepted(s: string): (b: bool)
    ensures b ==> !IsBlank(s)
  {
    ParseReal(s).Some? && RatingInRange(ParseReal(s).value)
  }

  /** Reads lines from `start` until one is an acceptable year. `at` is the index of
      that line, or `|inputs|` when the lines run out first. */
  method PromptYear(inputs: seq<string>, start: nat) returns (year: Option<int>, at: nat)
    requires start <= |inputs|
    ensures start <= at <= |inputs|
    ensures forall j :: start <= j < at ==> !YearAccepted(inputs[j])
    ensures year.None? <==> at == |inputs|
    ensures year.Some? ==> YearAccepted(inputs[at]) && ParseInt(inputs[at]) == year && YearInRange(year.value)
  {
    at := start;
    while at < |inputs|
      invariant start <= at <= |inputs|
      invariant forall j :: start <= j < at ==> !YearAccepted(inputs[j])
    {
      var line := inputs[at];
      if !IsBlank(line) {
        var parsed := ParseInt(line);
        if parsed.Some? && !(parsed.value < 1900 || parsed.value > 2025) {
          return parsed, at;
        }
      }
      assert !YearAccepted(inputs[at]);
      YearRejectedExtends(inputs, start, at);
      at := at + 1;
    }
    year := None;
  }

  /** Reads lines from `start` until one is an acceptable rating. `at` is the index of
      that line, or `|inputs|` when the lines run out first. */
  method PromptRating(inputs: seq<string>, start: nat) returns (rating: Option<real>, at: nat)
    requires start <= |inputs|
    ensures start <= at <= |inputs|
    ensures forall j :: start <= j < at ==> !RatingAccepted(inputs[j])
    ensures rating.None? <==> at == |inputs|
    ensures rating.Some? ==> RatingAccepted(inputs[at]) && ParseReal(inputs[at]) == rating && RatingInRange(rating.value)
  {
    at := start;
    while at < |inputs|
      invariant start <= at <= |inputs|
      invariant forall j :: start <= j < at ==> !RatingAccepted(inputs[j])
    {
      var parsed := ParseReal(inputs[at]);
      if parsed.Some? && 0.0 <= parsed.value <= 10.0 {
        return parsed, at;
      }
      assert !RatingAccepted(inputs[at]);
      RatingRejectedExtends(inputs, start, at);
      at := at + 1;
    }
    rating := None;
  }

  lemma YearRejectedExtends(inputs: seq<string>, start: nat, at: nat)
    requires start <= at < |inputs|
    requires forall j :: start <= j < at ==> !YearAccepted(inputs[j])
    requires !YearAccepted(inputs[at])
    ensures forall j :: start <= j < at + 1 ==> !YearAccepted(inputs[j])
  {
  }

  lemma RatingRejectedExtends(inputs: seq<string>, start: nat, at: nat)
    requires start <= at < |inputs|
    requires forall j :: start <= j < at ==> !RatingAccepted(inputs[j])
    requires !RatingAccepted(inputs[at])
    ensures forall j :: start <= j < at + 1 ==> !RatingAccepted(inputs[j])
  {
  }

  /** The blank-line check before `int()` in the year loop rejects nothing `int()` would accept. */
  lemma BlankIsNoInteger(s: string)
    requires IsBlank(s)
    ensures ParseInt(s).None?
  {
  }
}
