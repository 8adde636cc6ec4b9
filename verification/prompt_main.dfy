/**
 The builder as one call: split the code once, scan the lines once in the
 source's loop, and join the sections.
 */
module PromptMain {
  import opened Text
  import opened PromptBuilder
  import opened PromptFacts

  /**
   `generate_code_prompt` with the input split once: the prompt opens with
   the header, closes with the instruction, contains the task description,
   and names the function whenever a non-empty name is given.
   */
  method BuildPrompt(code: string, task: string, name: Option<string> := None, c: int := 5)
    returns (prompt: string)
    ensures prompt == GeneratePrompt(code, task, name, c)
    ensures StartsWith(prompt, Header)
    ensures EndsWith(prompt, Footer)
    ensures Contains(prompt, TaskPrefix + task)
    ensures HasName(name) ==> Contains(prompt, FunctionPrefix + name.value)
  {
    var lines := SplitLines(code);
    var imports, context := ScanLines(lines, name, c);
    prompt := JoinWith("\n\n", PromptParts(imports, context, task, name));
    PromptText(code, task, name, c);
    if HasName(name) {
      PromptNamesFunction(code, task, name, c);
    }
  }
}
