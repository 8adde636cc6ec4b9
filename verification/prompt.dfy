/**
 The prompt builder `generate_code_prompt`: it splits the existing code into
 lines, keeps the import lines, picks a window of lines around the last line
 that mentions the target function, and joins a fixed list of sections with
 blank lines.
 */
module PromptBuilder {
  import opened Text
  import opened PySlice

  /** Python's `Optional[str]`. */
  datatype Option<T> = None | Some(value: T)

  // The fixed sections of the prompt, in the order they appear.
  const Header := "# Task: Generate Python code based on the following requirements"
  const ContextHeading := "\n## Context"
  const ImportsLabel := "Existing imports:"
  const NoImports := "No existing imports"
  const ContextLabel := "\nRelevant code context:"
  const NoContext := "No relevant context found"
  const RequirementsHeading := "\n## Requirements"
  const TaskPrefix := "Task description: "
  const FunctionPrefix := "\nFunction name to implement: "
  const GuidanceIntro := "\nPlease implement this function following Python best practices:"
  const Bullets := [
    "- Include type hints",
    "- Add comprehensive docstring",
    "- Follow PEP 8 style guidelines",
    "- Include error handling where appropriate",
    "- Add comments for complex logic"
  ]
  const GeneratedHeading := "\n## Generated Code"
  const Footer := "Please provide the implementation below:"

  /** Python truthiness of `function_name`: present and non-empty. */
  predicate HasName(name: Option<string>)
  {
    name.Some? && |name.value| > 0
  }

  /** An import line starts literally with `import ` or `from `; nothing is trimmed. */
  predicate IsImport(line: string)
  {
    StartsWith(line, "import ") || StartsWith(line, "from ")
  }

  /** The import lines of `lines`, in their original order. */
  function Imports(lines: seq<string>): (r: seq<string>)
    ensures |r| <= |lines|
    ensures forall k :: 0 <= k < |r| ==> IsImport(r[k]) && r[k] in lines
    decreases |lines|
  {
    if |lines| == 0 then []
    else
      var last := lines[|lines| - 1];
      Imports(lines[..|lines| - 1]) + (if IsImport(last) then [last] else [])
  }

  /** The line mentions the target function, ignoring case (only when a name is given). */
  predicate Matches(name: Option<string>, line: string)
  {
    HasName(name) && ContainsCI(line, name.value)
  }

  /** Python's `lines.index(t)`: the position of the first line equal to `t`. */
  function FirstIndexOf(lines: seq<string>, t: string): (r: nat)
    requires t in lines
    ensures r < |lines| && lines[r] == t
    ensures forall k :: 0 <= k < r ==> lines[k] != t
    decreases |lines|
  {
    if lines[0] == t then 0 else 1 + FirstIndexOf(lines[1..], t)
  }

  /** The lines `[max(0, j - c), min(n, j + c))` around position `j`, sliced as Python does. */
  function Window(lines: seq<string>, j: int, c: int): seq<string>
  {
    Slice(lines, Max(0, j - c), Min(|lines|, j + c))
  }

  /**
   The context after scanning the first `k` lines: every matching line
   replaces it with the window around the first line of equal text.
   */
  function ContextAfter(lines: seq<string>, name: Option<string>, c: int, k: nat): seq<string>
    requires k <= |lines|
    decreases k
  {
    if k == 0 then []
    else if Matches(name, lines[k - 1]) then Window(lines, FirstIndexOf(lines, lines[k - 1]), c)
    else ContextAfter(lines, name, c, k - 1)
  }

  /** The context once every line has been scanned. */
  function ContextWindow(lines: seq<string>, name: Option<string>, c: int): seq<string>
  {
    ContextAfter(lines, name, c, |lines|)
  }

  /** The function-name line, the introduction and the five guidance bullets. */
  function Guidance(name: string): seq<string>
  {
    [FunctionPrefix + name, GuidanceIntro] + Bullets
  }

  /** The sections of the prompt, before they are joined. */
  function PromptParts(imports: seq<string>, context: seq<string>, task: string, name: Option<string>): seq<string>
  {
    [ Header,
      ContextHeading,
      ImportsLabel,
      if |imports| > 0 then JoinWith("\n", imports) else NoImports,
      ContextLabel,
      if |context| > 0 then JoinWith("\n", context) else NoContext,
      RequirementsHeading,
      TaskPrefix + task ]
    + (if HasName(name) then Guidance(name.value) else [])
    + [GeneratedHeading, Footer]
  }

  /**
   `generate_code_prompt(code, task, name, c)`, with the source's defaults:
   no function name and five lines of context.
   */
  function GeneratePrompt(code: string, task: string, name: Option<string> := None, c: int := 5): string
  {
    var lines := SplitLines(code);
    JoinWith("\n\n", PromptParts(Imports(lines), ContextWindow(lines, name, c), task, name))
  }

  /**
   The source's single loop over the lines, collecting the imports and
   overwriting the context on every match.
   */
  method ScanLines(lines: seq<string>, name: Option<string>, c: int)
    returns (imports: seq<string>, context: seq<string>)
    ensures imports == Imports(lines)
    ensures context == ContextWindow(lines, name, c)
  {
    imports := [];
    context := [];
    var i := 0;
    while i < |lines|
      invariant i <= |lines|
      invariant imports == Imports(lines[..i])
      invariant context == ContextAfter(lines, name, c, i)
    {
      var line := lines[i];
      assert lines[..i + 1][..i] == lines[..i];
      if IsImport(line) {
        imports := imports + [line];
      }
      if Matches(name, line) {
        context := Window(lines, FirstIndexOf(lines, line), c);
      }
      i := i + 1;
    }
    assert lines[..i] == lines;
  }
}
