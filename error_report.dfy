/**
 * The alert text shown when generating a blueprint fails: the thrown
 * error's message is sorted into a parse problem, a transport problem, or
 * anything else, and prefixed with a fixed lead-in.
 */
module ErrorReport {
  import opened JsString
  import opened PayloadExtraction

  const ErrorPrefix := "Error generating blueprint: "
  const InvalidFormatText := "Invalid response format from AI. Please try again."
  const ConnectionText := "Connection error. Please check your internet and try again."

  /** The message thrown for a reply without a readable first text block. */
  const InvalidStructure := "Invalid response structure from API"

  /** The message thrown for a non-success HTTP status: the fixed lead-in,
    * the status in decimal, and the response body at the end. */
  function TransportMessage(status: nat, body: string): (r: string)
    ensures |r| >= 24 + |body| && r[..20] == "API request failed: "
    ensures r[20..|r| - |body| - 3] == DecimalString(status)
    ensures DigitsValue(r[20..|r| - |body| - 3]) == status
    ensures r[|r| - |body| - 3..] == " - " + body
  {
    var lead := "API request failed: ";
    var digits := DecimalString(status);
    var tail := " - " + body;
    var r := lead + (digits + tail);
    assert r[..20] == lead;
    assert r[20..|r| - |tail|] == digits;
    assert r[|r| - |tail|..] == tail;
    r
  }

  /** The alert for a thrown message. A message mentioning "JSON" is a
    * format problem even when it also reports a failed request; a failed
    * request is a connection problem; any other message is shown as it is. */
  function UserMessage(message: string): (r: string)
    ensures |ErrorPrefix| <= |r| && r[..|ErrorPrefix|] == ErrorPrefix
    ensures Includes(message, "JSON") ==> r[|ErrorPrefix|..] == InvalidFormatText
    ensures !Includes(message, "JSON") && Includes(message, "API request failed")
      ==> r[|ErrorPrefix|..] == ConnectionText
    ensures !Includes(message, "JSON") && !Includes(message, "API request failed")
      ==> r[|ErrorPrefix|..] == message
  {
    var errorMessage := ErrorPrefix;
    if Includes(message, "JSON") then errorMessage + InvalidFormatText
    else if Includes(message, "API request failed") then errorMessage + ConnectionText
    else errorMessage + message
  }

  /** A reply without a brace pair is reported as a format problem. */
  lemma NoPayloadIsInvalidFormat(message: string)
    requires message == NoJsonFound
    ensures UserMessage(message) == ErrorPrefix + InvalidFormatText
  {
    assert message[9..13] == "JSON" by {
      assert message[9] == 'J' && message[10] == 'S';
      assert message[11] == 'O' && message[12] == 'N';
    }
    assert OccursAt(message, "JSON", 9);
  }

  /** A parse failure whose message names JSON is a format problem. */
  lemma ParseFailureIsInvalidFormat(message: string, pre: string, post: string)
    requires message == pre + "JSON" + post
    ensures UserMessage(message) == ErrorPrefix + InvalidFormatText
  {
    assert OccursAt(message, "JSON", |pre|);
  }

  /** A non-success HTTP status is a connection problem, unless the
    * response body itself mentions JSON. */
  lemma TransportFailureIsConnection(status: nat, body: string)
    requires !Includes(body, "JSON")
    ensures UserMessage(TransportMessage(status, body)) == ErrorPrefix + ConnectionText
  {
    var lead := "API request failed: " + DecimalString(status) + " - ";
    var message := TransportMessage(status, body);
    assert message == lead + body;
    assert 'J' !in lead by {
      assert 'J' !in "API request failed: ";
      assert 'J' !in " - ";
    }
    NotIncludedAfterPrefix(lead, body, "JSON");
    assert OccursAt(message, "API request failed", 0);
  }

  /** The "JSON" check comes first: a failed request whose body mentions
    * JSON is reported as a format problem, not a connection problem. */
  lemma TransportBodyNamingJsonIsInvalidFormat(status: nat, body: string)
    requires Includes(body, "JSON")
    ensures UserMessage(TransportMessage(status, body)) == ErrorPrefix + InvalidFormatText
  {
    var message := TransportMessage(status, body);
    var i :| OccursAt(body, "JSON", i);
    var k := |message| - |body|;
    assert message[k..] == body by {
      assert message[k..] == message[k - 3..][3..];
    }
    assert message[k + i..k + i + 4] == body[i..i + 4];
    assert OccursAt(message, "JSON", k + i);
  }

  /** Where the characters that open the two probes are absent from the
    * envelope message. */
  lemma InvalidStructureLetters()
    ensures 'J' !in InvalidStructure
    ensures |InvalidStructure| == 35 && 'A' !in InvalidStructure[..18]
  {
    assert InvalidStructure[..18] == "Invalid response s";
  }

  /** A malformed reply envelope is reported with its own message. */
  lemma InvalidStructurePassesThrough(message: string)
    requires message == InvalidStructure
    ensures UserMessage(message) == ErrorPrefix + InvalidStructure
  {
    InvalidStructureLetters();
    FirstCharAbsent(message, "JSON");
    FirstCharAbsent(message, "API request failed");
  }
}
