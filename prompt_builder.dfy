/**
 * The fixed three-message prompt sent for each window
 * (js/services/gptService.js:53-66).
 */
module PromptBuilder {
  import opened Wrappers
  import opened JsText

  datatype Role = System | User

  datatype Message = Message(role: Role, content: string)

  /** The system instruction up to the chunk number. */
  const SystemPreamble: string :=
    "You are an AI assistant tasked with "
    + "analyzing an interview transcript about "
    + "a disaster situation and creating sticky "
    + "notes. Each sticky note should capture a "
    + "key point, insight, or quote from the "
    + "conversation. Focus on important "
    + "information, decisions, or emotions "
    + "expressed by the Resident. This is chunk "

  /** The output-format instruction, the same for every window. */
  const FormatInstruction: string :=
    "Based on this part of the interview "
    + "transcript, generate a series of sticky "
    + "notes. Each sticky note should be in the "
    + "following format:\n\nSticky Note X:\n"
    + "SOURCE: [Resident or Interviewer]\n"
    + "CONTENT: [Brief quote or paraphrase]\n"
    + "INSIGHT: [Key takeaway or "
    + "interpretation]\n\nProvide at least 3 "
    + "sticky notes, focusing on the most "
    + "significant points made by the Resident. "
    + "If this chunk doesn't contain enough "
    + "meaningful content for 3 sticky notes, "
    + "generate as many as you can."

  /**
   * The messages for the window `chunk`, numbered `chunkIndex` (1-based):
   * the system instruction naming the chunk number, the window text
   * verbatim, and the fixed format instruction, in that order.
   */
  function ChunkMessages(chunk: string, chunkIndex: nat): (messages: seq<Message>)
    ensures |messages| == 3
    ensures messages[0].role == System && messages[1].role == User && messages[2].role == User
    ensures messages[1].content == chunk
    ensures messages[2].content == FormatInstruction
  {
    [Message(System, SystemPreamble + NatToString(chunkIndex) + "."), Message(User, chunk), Message(User, FormatInstruction)]
  }

  /** The system message names the chunk number, in decimal, and it reads back as that number. */
  lemma ChunkMessagesNameTheChunk(chunk: string, chunkIndex: nat)
    ensures ChunkNumber(ChunkMessages(chunk, chunkIndex)) == Some(chunkIndex)
  {
    var number := NatToString(chunkIndex);
    var system := SystemPreamble + number + ".";
    assert system[|SystemPreamble|..|system| - 1] == number;
    DecimalRoundTrip(chunkIndex);
  }

  /**
   * The chunk number a prompt's system message names, read back from the
   * text between the fixed preamble and the closing period.
   */
  function ChunkNumber(messages: seq<Message>): Option<nat>
  {
    if messages == [] then None
    else
      var text := messages[0].content;
      var p := |SystemPreamble|;
      if p < |text| && text[..p] == SystemPreamble && text[|text| - 1] == '.'
         && AllDigits(text[p..|text| - 1])
      then Some(DecimalValue(text[p..|text| - 1]))
      else None
  }

  /** Prompts for different chunk numbers differ, whatever their window texts. */
  lemma PromptsNameTheirChunk(c1: string, k1: nat, c2: string, k2: nat)
    requires k1 != k2
    ensures ChunkMessages(c1, k1) != ChunkMessages(c2, k2)
  {
    ChunkMessagesNameTheChunk(c1, k1);
    ChunkMessagesNameTheChunk(c2, k2);
  }
}
