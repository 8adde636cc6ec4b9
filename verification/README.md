# Prompt builder model

A Dafny model of `generate_code_prompt` from `show_code_completion.py`, the
one function of the repository. Given the text of a Python file, a task
description, an optional target function name and a number of context lines,
it builds a prompt for a code-generation model:

1. it splits the text on `'\n'`;
2. it keeps, in order, the lines that literally start with `import ` or
   `from ` (no left trimming, so an indented import is not kept);
3. for every line that contains the target name, compared after lower-casing
   both, it replaces the context with the slice `[max(0, j - c), min(n, j + c))`
   of the lines, where `j` is the position of the FIRST line whose text equals
   the matching line (Python's `list.index`); only the last matching line
   counts;
4. it joins a fixed list of sections with `"\n\n"`: header, context heading,
   the imports (or `No existing imports`), the context (or
   `No relevant context found`), the requirements heading, the task
   description, the seven-part guidance block when a non-empty name is given,
   and the closing heading and instruction.

Modules:

- `Text` (`text.dfy`): Python's `str.split('\n')`, `sep.join`, `startswith`,
  ASCII `lower()` and the substring test, with their round trips
  (split then join, join then split) and the characterisation of the
  substring test by an occurrence position.
- `PySlice` (`slice.dfy`): Python's list slicing with arbitrary integer
  bounds, including negative bounds that count from the end.
- `PromptBuilder` (`prompt.dfy`): the import filter, the case-insensitive
  match, `list.index`, the context window as a fold over the scanned lines
  (`ContextAfter(lines, name, c, k)` is the context after `k` lines), the
  sections, the prompt, and `ScanLines`, a loop that mirrors the source's
  single `for` loop and is proved to compute the same imports and context as
  the functional definitions.
- `PromptFacts` (`prompt_facts.dfy`): the properties of the builder.
- `PromptMain` (`prompt_main.dfy`): `BuildPrompt`, the whole builder as one
  call that splits and scans once, with the prompt's headline properties.

Properties of the code worth knowing before reading the proofs:

- the import test does not trim leading whitespace, so `    import x` is not
  an import line;
- the context placeholder is `No relevant context found`, and the header is
  `# Task: Generate Python code based on the following requirements`;
- with the code `import os / def foo(): / pass`, target `foo` and `c = 1`,
  the window is `import os` and `def foo():`, because the end bound `j + c`
  is exclusive; in general the window holds up to `c` lines before the
  match but only `c - 1` after it (`PromptFacts.WindowShape` gives the exact
  length `min(j, c) + min(n - j, c)`);
- `GeneratePrompt` and `BuildPrompt` take the source's defaults: no function
  name and `c = 5`.

## Model

| member | source | states |
|---|---|---|
| `Text.SplitLines` | show_code_completion.py:27 | splitting on newline gives one more piece than there are newlines, and no piece contains a newline |
| `Text.JoinSplit` | show_code_completion.py:27 | joining the split pieces with newline gives back the original text |
| `Text.SplitJoin` | show_code_completion.py:27 | splitting the newline-join of newline-free pieces gives back exactly those pieces |
| `Text.JoinWith` | show_code_completion.py:63 | the joined text is as long as the pieces plus one separator between each pair; joining nothing gives the empty text |
| `Text.JoinStartsWith` | show_code_completion.py:63 | the joined text starts with the first piece |
| `Text.JoinEndsWith` | show_code_completion.py:63 | the joined text ends with the last piece |
| `Text.JoinContains` | show_code_completion.py:63 | every piece occurs in the joined text |
| `Text.ContainsSpec` | show_code_completion.py:31 | the substring test holds exactly when the needle occurs at some position of the text |
| `Text.ContainsSuffixOf` | show_code_completion.py:46 | text containing `p + t` contains `t` |
| `Text.Lower` | show_code_completion.py:31 | lower-casing keeps the length and maps every character through the ASCII case map |
| `Text.LowerSpec` | show_code_completion.py:31 | lower-cased text has no upper-case letter, other characters are unchanged, and lower-casing twice is lower-casing once |
| `Text.ContainsCIIgnoresCase` | show_code_completion.py:31 | the match ignores the case of both the line and the name |
| `PySlice.Slice` | show_code_completion.py:35 | a slice is never longer than the list |
| `PySlice.SliceSpec` | show_code_completion.py:35 | in-range bounds select that range, an end past the list clamps, crossed bounds give nothing, negative bounds count from the end |
| `PySlice.SliceContiguous` | show_code_completion.py:35 | every slice is a contiguous run of the list |
| `PromptBuilder.Imports` | show_code_completion.py:24-29 | the imports are no more than the lines, and each is an import line taken from the lines |
| `PromptBuilder.FirstIndexOf` | show_code_completion.py:32-34 | `list.index` returns a position holding the text with no earlier position holding it |
| `PromptBuilder.ScanLines` | show_code_completion.py:24-35 | the single loop collects exactly the filtered imports and ends with the context of the last-match fold |
| `PromptFacts.ImportsAppend` | show_code_completion.py:27-29 | filtering a concatenation is the concatenation of the filtered halves, so the original order is kept |
| `PromptFacts.ImportsSingle` | show_code_completion.py:28-29 | a single line is kept exactly when it is an import line |
| `PromptFacts.ImportsMembership` | show_code_completion.py:27-29 | a text is among the imports exactly when it is one of the lines and starts with `import ` or `from ` |
| `PromptFacts.ImportsEmpty` | show_code_completion.py:27-29 | there are no imports exactly when no line is an import line |
| `PromptFacts.ImportTestIsLiteral` | show_code_completion.py:28 | `import os` and `from typing import List` are imports; an indented import, `importlib` and the empty line are not |
| `PromptFacts.ImportFirstChar` | show_code_completion.py:28 | every import line begins with `i` or `f` |
| `PromptFacts.NotImportByFirstChar` | show_code_completion.py:28 | a line beginning with neither `i` nor `f` is not an import line |
| `PromptFacts.LastMatchWins` | show_code_completion.py:30-35 | when line `m` matches and no later scanned line does, the context is the window around the first line equal to line `m`, whatever matched before |
| `PromptFacts.NoMatchNoContext` | show_code_completion.py:25-31 | when no scanned line matches the context is empty |
| `PromptFacts.NoNameNoContext` | show_code_completion.py:31 | without a name, or with the empty name, the context is empty |
| `PromptFacts.LastMatchWindow` | show_code_completion.py:31-35 | for `c >= 0`, when line `m` is the last line mentioning the name, the context is `lines[max(0, j-c) .. min(n, j+c)]` where `j <= m` is the first position holding line `m`'s text |
| `PromptFacts.WindowShape` | show_code_completion.py:32-35 | for `c >= 0` the window is `lines[max(0, j-c) .. min(n, j+c)]`, of length `min(j, c) + min(n-j, c)` at most `2c`, empty for `c == 0`, and containing line `j` when `c >= 1` |
| `PromptFacts.ContextIsAWindow` | show_code_completion.py:25-35 | after any number of scanned lines the context is empty or the window around some line |
| `PromptFacts.ContextBounds` | show_code_completion.py:32-35 | for `c >= 0` the context is a contiguous run of the lines, at most `2c` long, and empty for `c == 0` |
| `PromptFacts.DuplicateLinesCentreOnFirstCopy` | show_code_completion.py:32-35 | with a repeated matching line the window is centred on its first copy, not on the last match |
| `PromptFacts.NegativeWindow` | show_code_completion.py:32-35 | a negative size gives the empty window unless `j < -c`, when the end bound wraps from the end of the list and the window is `lines[j - c : n + j + c]` |
| `PromptFacts.NegativeContextWraps` | show_code_completion.py:32-35 | one wrapping case: ten lines, `j = 2`, `c = -3` give lines 5 to 8 |
| `PromptFacts.PartsLayout` | show_code_completion.py:38-47 | 10 sections without a name and 17 with one, header first, closing heading and instruction last, imports, context and task at positions 3, 5 and 7, with both placeholders |
| `PromptFacts.GuidanceIffName` | show_code_completion.py:49-61 | with a non-empty name sections 8 to 14 are the guidance block; without one the task description is followed directly by the closing sections |
| `PromptFacts.JoinedImportsNotPlaceholder` | show_code_completion.py:42 | the joined import lines never read as the imports placeholder |
| `PromptFacts.ImportsSectionPlaceholder` | show_code_completion.py:42 | the imports section is the placeholder exactly when no line is an import line |
| `PromptFacts.PromptText` | show_code_completion.py:38-63 | the prompt starts with the header, ends with the closing instruction and contains `Task description: ` followed by the task description, and the task description itself |
| `PromptFacts.PromptNoImports` | show_code_completion.py:42 | without import lines the prompt contains `No existing imports` |
| `PromptFacts.PromptNoContext` | show_code_completion.py:44 | whenever the computed context is empty (no name, no match, or an empty window) the prompt contains `No relevant context found` |
| `PromptFacts.PromptNoMatchNoContext` | show_code_completion.py:31-44 | without a name, or when no line mentions it, the prompt contains `No relevant context found` |
| `PromptFacts.PromptNamesFunction` | show_code_completion.py:49-51 | with a non-empty name the prompt contains `Function name to implement: ` and the name |
| `PromptFacts.ScenarioFooLines` | show_code_completion.py:27 | the three-line example splits into its three lines |
| `PromptFacts.ScenarioFooImports` | show_code_completion.py:27-29 | of the three lines only `import os` is an import |
| `PromptFacts.ScenarioFooPassNoMatch` | show_code_completion.py:31 | `foo` does not occur in the `pass` line |
| `PromptFacts.ScenarioFooDefMatches` | show_code_completion.py:31 | `foo` occurs in the `def foo():` line |
| `PromptFacts.ScenarioFooContext` | show_code_completion.py:31-35 | with one context line the window is the import and the `def` line only |
| `PromptFacts.ScenarioFooGenerate` | show_code_completion.py:27-63 | the prompt for the three-line example is the join of the sections built from `import os` and the two-line window |
| `PromptFacts.ScenarioFooPrompt` | show_code_completion.py:38-58 | for that example (tied to the code by `ScenarioFooGenerate`) the sections hold `import os`, the two-line window, the task description and `foo` in the guidance |
| `PromptFacts.ScenarioEmpty` | show_code_completion.py:7-47 | empty code with the default name and size gives 10 sections with both placeholders |
| `PromptMain.BuildPrompt` | show_code_completion.py:4-63 | the builder, splitting and scanning once, gives a prompt that starts with the header, ends with the closing instruction, contains `Task description: ` and the task description, and names the function whenever a non-empty name is given |

## Left out

- `example_prompt_generation` and the `__main__` block (show_code_completion.py:66-93): a demonstration call and a `print` to standard output.
- The imports of `inspect` and `typing` (show_code_completion.py:1-2): never used.
- Unicode case mapping: Python's `str.lower()` maps all of Unicode; the model lower-cases only `A`-`Z`, so names and lines with non-ASCII letters may match differently.
- Repeated splitting: the source re-splits the text for every matching line; the model splits once, which gives the same lines, and keeps the first-equal-line semantics of `list.index`.
- Dynamic typing: arguments of other types than `str`, `Optional[str]` and `int` are not modelled.
- Output bytes beyond the sections: the prompt is a sequence of characters; no encoding is modelled.
