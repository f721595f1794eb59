/** Producing the minutes of meeting (`generate_mom`): the chat-completion
    request made of the meeting text, and the checks on the configured key and
    on the service's answer. The request itself goes over the network and is
    not part of this model; its answer is a parameter. */
module Completion {
  import opened Results

  /** The body of the chat-completion request: the model, the instruction the
      system message gives, the meeting text as the user message, and the
      sampling temperature in tenths. */
  datatype MomRequest = MomRequest(model: string, instruction: string, meetingText: string, temperatureTenths: nat)

  /** The service's answer: status code, body text, and the content of the
      first choice's message. */
  datatype CompletionResponse = CompletionResponse(status: int, text: string, content: string)

  const MODEL: string := "gpt-3.5-turbo"

  /** The system message: the format action items are to be written in. */
  const INSTRUCTION: string :=
    "Extract project action items in this format:\n1. **Issue:** description\n   - **Assigned to:** name"

  const KEY_NOT_SET: string := "OPENAI_API_KEY is not set in environment variables"

  const AI_ERROR: string := "AI API Error: "

  /** The key counts as set when it is present and not empty (Python truthiness). */
  predicate KeySet(apiKey: Option<string>) {
    apiKey.Some? && apiKey.value != ""
  }

  function RequestFor(meetingText: string): (q: MomRequest)
    ensures q.meetingText == meetingText && q.model == MODEL && q.instruction == INSTRUCTION
  {
    MomRequest(MODEL, INSTRUCTION, meetingText, 3)
  }

  /** `generate_mom`: fails when the key is unset, fails with the body text
      when the answer's status is not 200, and otherwise gives the content of
      the answer. */
  function GenerateMom(apiKey: Option<string>, response: CompletionResponse): (r: Result<string>)
    ensures !KeySet(apiKey) ==> r == Err(KEY_NOT_SET)
    ensures KeySet(apiKey) && response.status != 200 ==> r == Err(AI_ERROR + response.text)
    ensures KeySet(apiKey) && response.status == 200 ==> r == Ok(response.content)
  {
    if !KeySet(apiKey) then Err(KEY_NOT_SET)
    else if response.status != 200 then Err(AI_ERROR + response.text)
    else Ok(response.content)
  }
}
