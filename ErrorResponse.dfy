// The error reply the engine's WebSocket server sends (minimax/src/ws/response_builder.cpp,
// constructErrorResponse): a fixed JSON frame around a message chosen by the parse result,
// with the caller's details appended verbatim.

module ErrorResponse {

  /** The parser's result codes, as named where they are produced and consumed. */
  datatype ParseResult = ParseOk | ErrorUnknown | ErrorInvalidBoard | ErrorInvalidScores | ErrorGameDifficulty

  const Prefix: string := "{\"type\":\"error\",\"error\":\""
  const Suffix: string := "\"}"
  const DetailsSeparator: string := ": "

  /** The message for a result code: three codes have their own text, every other one is unknown. */
  function Message(result: ParseResult): (m: string)
    ensures result == ErrorInvalidBoard <==> m == "Invalid board field"
    ensures result == ErrorInvalidScores <==> m == "Invalid scores field"
    ensures result == ErrorGameDifficulty <==> m == "Game Difficulty Error"
    ensures result == ParseOk || result == ErrorUnknown <==> m == "Unknown error"
    ensures m != [] && ':' !in m
  {
    match result
    case ErrorInvalidBoard => "Invalid board field"
    case ErrorInvalidScores => "Invalid scores field"
    case ErrorGameDifficulty => "Game Difficulty Error"
    case _ => "Unknown error"
  }

  /**
   * `constructErrorResponse`: the prefix, the message, then ": " and the details when there
   * are any, then the suffix. The details are not escaped.
   */
  function ConstructErrorResponse(result: ParseResult, details: string): (r: string)
    ensures |r| >= |Prefix| + |Suffix| && r[..|Prefix|] == Prefix && r[|r| - |Suffix|..] == Suffix
    ensures r[|Prefix|..|r| - |Suffix|] ==
      Message(result) + (if details == [] then [] else DetailsSeparator + details)
  {
    var tail := if details == [] then [] else DetailsSeparator + details;
    var r := Prefix + Message(result) + tail + Suffix;
    assert r[|Prefix|..|r| - |Suffix|] == Message(result) + tail;
    r
  }

  /** The part between the frame's prefix and suffix. */
  function Body(r: string): string
    requires |r| >= |Prefix| + |Suffix|
  {
    r[|Prefix|..|r| - |Suffix|]
  }

  /**
   * Two replies are equal only when their messages and their details are: the message
   * holds no colon, so the first colon of the body (if any) starts the details.
   */
  lemma ErrorResponseInjective(r1: ParseResult, d1: string, r2: ParseResult, d2: string)
    requires ConstructErrorResponse(r1, d1) == ConstructErrorResponse(r2, d2)
    ensures Message(r1) == Message(r2) && d1 == d2
  {
    var t1 := if d1 == [] then [] else DetailsSeparator + d1;
    var t2 := if d2 == [] then [] else DetailsSeparator + d2;
    var body := Message(r1) + t1;
    assert body == Message(r2) + t2;
    MessageEndsAtColon(Message(r1), t1);
    MessageEndsAtColon(Message(r2), t2);
    assert Message(r1) == body[..FirstColon(body)] == Message(r2);
    assert t1 == body[FirstColon(body)..] == t2;
    if d1 != [] && d2 != [] {
      assert d1 == t1[2..] && d2 == t2[2..];
    }
  }

  /** The index of the first ':' of s, or |s| when there is none. */
  function FirstColon(s: string): (n: nat)
    ensures n <= |s| && ':' !in s[..n] && (n < |s| ==> s[n] == ':')
  {
    if s == [] then 0
    else if s[0] == ':' then 0
    else
      var n := 1 + FirstColon(s[1..]);
      assert s[..n] == [s[0]] + s[1..][..n - 1];
      n
  }

  /** A colon-free message followed by a tail that is empty or starts with ':' ends at the first colon. */
  lemma {:induction false} MessageEndsAtColon(m: string, t: string)
    requires ':' !in m && (t == [] || t[0] == ':')
    ensures FirstColon(m + t) == |m|
  {
    if m != [] {
      MessageEndsAtColon(m[1..], t);
      assert (m + t)[1..] == m[1..] + t;
    }
  }
}
