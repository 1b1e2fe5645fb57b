/** The frozen, keyword-only response records and the dictionaries `to_dict` builds from
    them. Being datatypes, their values never change after construction. */
module Responses {
  import opened Wrappers

  /** The JSON-like values the dictionaries hold. */
  datatype Value = IntValue(i: int) | BoolValue(b: bool) | StrValue(s: string) | DictValue(d: map<string, Value>)

  /** Where an error lies in the text; `in_original` defaults to `False`. */
  datatype ErrorPosition = ErrorPosition(start: int, end: int, inOriginal: bool := false)

  /** The verdict on one factual assertion. */
  datatype SuggestionResponse = SuggestionResponse(fact: string, position: ErrorPosition, isCorrect: bool, explanation: string)

  /** `ErrorPosition.to_dict`: exactly the keys `start`, `end` and `in_original`. */
  function PositionToDict(p: ErrorPosition): (d: map<string, Value>)
    ensures d.Keys == {"start", "end", "in_original"}
    ensures d["start"] == IntValue(p.start) && d["end"] == IntValue(p.end)
      && d["in_original"] == BoolValue(p.inOriginal)
  {
    map["start" := IntValue(p.start), "end" := IntValue(p.end), "in_original" := BoolValue(p.inOriginal)]
  }

  /** `SuggestionResponse.to_dict`: the three scalar fields verbatim, and the position as its
      own dictionary. */
  function ResponseToDict(r: SuggestionResponse): (d: map<string, Value>)
    ensures d.Keys == {"fact", "is_correct", "explanation", "position"}
    ensures d["fact"] == StrValue(r.fact) && d["is_correct"] == BoolValue(r.isCorrect)
      && d["explanation"] == StrValue(r.explanation)
      && d["position"] == DictValue(PositionToDict(r.position))
  {
    map["fact" := StrValue(r.fact), "is_correct" := BoolValue(r.isCorrect),
        "explanation" := StrValue(r.explanation), "position" := DictValue(PositionToDict(r.position))]
  }

  /** The dictionaries this model reads back as a position: `start` and `end` holding
      integers, optionally `in_original` holding a boolean, and no other key. */
  function PositionFromDict(d: map<string, Value>): (r: Option<ErrorPosition>)
    ensures r.Some? ==> "start" in d && "end" in d
  {
    if "start" in d && d["start"].IntValue? && "end" in d && d["end"].IntValue?
      && d.Keys <= {"start", "end", "in_original"} then
      if "in_original" !in d then Some(ErrorPosition(d["start"].i, d["end"].i))
      else if d["in_original"].BoolValue? then Some(ErrorPosition(d["start"].i, d["end"].i, d["in_original"].b))
      else None
    else None
  }

  /** Reading a response back from its dictionary. */
  function ResponseFromDict(d: map<string, Value>): (r: Option<SuggestionResponse>)
    ensures r.Some? ==> d.Keys == {"fact", "is_correct", "explanation", "position"}
  {
    if d.Keys == {"fact", "is_correct", "explanation", "position"}
      && d["fact"].StrValue? && d["is_correct"].BoolValue? && d["explanation"].StrValue?
      && d["position"].DictValue? then
      match PositionFromDict(d["position"].d)
      case Some(p) => Some(SuggestionResponse(d["fact"].s, p, d["is_correct"].b, d["explanation"].s))
      case None => None
    else None
  }

  /** The position dictionary loses nothing: it reads back as the same position. */
  lemma PositionRoundTrip(p: ErrorPosition)
    ensures PositionFromDict(PositionToDict(p)) == Some(p)
  {
  }

  /** The response dictionary loses nothing: it reads back as the same response. */
  lemma ResponseRoundTrip(r: SuggestionResponse)
    ensures ResponseFromDict(ResponseToDict(r)) == Some(r)
  {
    PositionRoundTrip(r.position);
  }

  /** A position built without `in_original` is not in the original text. */
  lemma InOriginalDefault(start: int, end: int)
    ensures !ErrorPosition(start := start, end := end).inOriginal
    ensures PositionToDict(ErrorPosition(start, end))["in_original"] == BoolValue(false)
  {
  }

  /** Two positions with the same dictionary are the same position. */
  lemma PositionToDictInjective(p: ErrorPosition, q: ErrorPosition)
    requires PositionToDict(p) == PositionToDict(q)
    ensures p == q
  {
    PositionRoundTrip(p);
    PositionRoundTrip(q);
  }
}
