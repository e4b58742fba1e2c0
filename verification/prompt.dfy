/** abap_lm_prompt: the instruction text sent to the model, followed by the ABAP code. */
module Prompt {

  /** The fixed instructions, with the blank line that separates them from the code. */
  const Instructions: string :=
    "You are an ABAP code analysis assistant.\n"
    + "Analyze the following ABAP code and extract only SELECT-OPTIONS and PARAMETERS declarations (selection screen parameters).\n"
    + "For each, return an object with keys: type, name, object, description "
    + "(in which \"type\" is the declaration keyword, \"name\" is the identifier, \"object\" is the technical reference, and \"description\" is a one-sentence explanation).\n"
    + "**Return the result as a raw JSON array, with NO prose, no markdown, no code block, and no explanation. Only output a single array.**\n\n"

  /** The prompt: the instructions, then the code verbatim (no escaping, no truncation). */
  function BuildPrompt(code: string): (p: string)
    ensures |p| == |Instructions| + |code|
    ensures p[..|Instructions|] == Instructions
    ensures p[|Instructions|..] == code
  {
    Instructions + code
  }

  /** Recovers the code from a prompt: the inverse of BuildPrompt. */
  function CodeOf(p: string): string
    requires |p| >= |Instructions|
  {
    p[|Instructions|..]
  }

  /** Nothing of the code is lost: the code is read back unchanged from its prompt. */
  lemma {:induction false} CodeOfBuildPrompt(code: string)
    ensures CodeOf(BuildPrompt(code)) == code
  {
  }

  /** Distinct code gives distinct prompts, and the prompts of any two snippets share the same prefix. */
  lemma {:induction false} BuildPromptInjective(c1: string, c2: string)
    ensures BuildPrompt(c1) == BuildPrompt(c2) <==> c1 == c2
    ensures BuildPrompt(c1)[..|Instructions|] == BuildPrompt(c2)[..|Instructions|]
  {
    if BuildPrompt(c1) == BuildPrompt(c2) {
      CodeOfBuildPrompt(c1);
      CodeOfBuildPrompt(c2);
    }
  }
}
