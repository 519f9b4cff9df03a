/** The persisted chat record and its display string. */
module Models {
  import opened Strings

  /** Characters of each message shown in the display string. */
  const PREVIEW_LENGTH: nat := 50

  /** One stored exchange. The timestamp column is not part of the display
      string and is not modelled. */
  datatype ChatHistory = ChatHistory(userMessage: string, botResponse: string) {

    /** Display string: each message cut to its first 50 characters and
        followed by "..." whether or not anything was cut. */
    function ToString(): (r: string)
      ensures
        var u := Prefix(userMessage, PREVIEW_LENGTH);
        var b := Prefix(botResponse, PREVIEW_LENGTH);
        var m, n := |u|, |b|;
        && |r| == 20 + m + n
        && r[..6] == "User: "
        && r[6..6 + m] == userMessage[..m]
        && r[6 + m..17 + m] == "... | Bot: "
        && r[17 + m..17 + m + n] == botResponse[..n]
        && r[17 + m + n..] == "..."
    {
      "User: " + Prefix(userMessage, PREVIEW_LENGTH) + "... | Bot: "
        + Prefix(botResponse, PREVIEW_LENGTH) + "..."
    }
  }

  /** The display string never exceeds 6 + 50 + 11 + 50 + 3 characters, and its
      length is 20 plus the two shown message lengths. */
  lemma ToStringLength(c: ChatHistory)
    ensures |c.ToString()| <= 120
    ensures |c.ToString()| == 20 + (if |c.userMessage| < 50 then |c.userMessage| else 50)
                                + (if |c.botResponse| < 50 then |c.botResponse| else 50)
  {
  }

  /** "..." follows each message part even when nothing was cut: a message
      shorter than the preview length appears whole, then "...". */
  lemma EllipsisWithoutTruncation(c: ChatHistory)
    ensures |c.userMessage| < PREVIEW_LENGTH ==>
      c.ToString()[6..9 + |c.userMessage|] == c.userMessage + "..."
    ensures |c.botResponse| < PREVIEW_LENGTH ==>
      c.ToString()[|c.ToString()| - 3 - |c.botResponse|..] == c.botResponse + "..."
  {
  }

  /** Text past the 50th character never reaches the display string. */
  lemma ToStringIgnoresTail(c: ChatHistory, userTail: string, botTail: string)
    requires |c.userMessage| >= PREVIEW_LENGTH && |c.botResponse| >= PREVIEW_LENGTH
    ensures ChatHistory(c.userMessage + userTail, c.botResponse + botTail).ToString() == c.ToString()
  {
  }

  /** Messages of at most 50 characters can be read back from the display
      string once the length of the user part is known. */
  lemma ToStringInjectiveShort(c: ChatHistory, d: ChatHistory)
    requires |c.userMessage| <= 50 && |c.botResponse| <= 50
    requires |d.userMessage| <= 50 && |d.botResponse| <= 50
    requires |c.userMessage| == |d.userMessage|
    requires c.ToString() == d.ToString()
    ensures c == d
  {
  }
}
