/** The records both pipelines share (src/utils.py): a review going in, the
    extracted data coming out, and the decoded JSON object in between. */
module Records {

  /** A decoded JSON object whose values are strings. */
  type Obj = map<string, string>

  /** What json.loads yields for a candidate payload: an object, or the
      message of the exception it raised. */
  datatype Parsed = Parsed(obj: Obj) | ParseError(message: string)

  /** json.loads is not modelled: every pipeline takes it as a parameter. */
  type Decoder = string -> Parsed

  /** One input row: pydantic model Review. */
  datatype Review = Review(reviewId: string, reviewText: string)

  /** One output row: pydantic model ExtractedData. */
  datatype ExtractedData = ExtractedData(
    reviewId: string,
    product: string,
    sentiment: string,
    reason: string,
    confidence: real,
    promptUsed: string)

  /** The key/value shape both prompts show the model, between its braces. */
  const ReplyShape: string := "\"product\": \"...\", \"sentiment\": \"...\", " + "\"reason\": \"...\""

  /** dict.get(key, default). */
  function Get(obj: Obj, key: string, default: string): string {
    if key in obj then obj[key] else default
  }

  /** The object fields both pipelines copy into their success result, with
      the defaults "unknown", "unknown" and "" for missing keys. */
  function FromObject(id: string, obj: Obj, confidence: real, promptUsed: string): (d: ExtractedData)
    ensures d.reviewId == id && d.confidence == confidence && d.promptUsed == promptUsed
    ensures d.product == (if "product" in obj then obj["product"] else "unknown")
    ensures d.sentiment == (if "sentiment" in obj then obj["sentiment"] else "unknown")
    ensures d.reason == (if "reason" in obj then obj["reason"] else "")
  {
    ExtractedData(id, Get(obj, "product", "unknown"), Get(obj, "sentiment", "unknown"),
                  Get(obj, "reason", ""), confidence, promptUsed)
  }

  /** The sentinel result of a pipeline that produced no data. */
  function ErrorResult(id: string, reason: string, promptUsed: string): (d: ExtractedData)
    ensures d.product == "error" && d.sentiment == "error" && d.confidence == 0.0
  {
    ExtractedData(id, "error", "error", reason, 0.0, promptUsed)
  }
}
