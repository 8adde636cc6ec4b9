/**
 What `generate_code_prompt` promises: which lines count as imports, which
 window of lines becomes the context, and how the sections are laid out.
 */
module PromptFacts {
  import opened Text
  import opened PySlice
  import opened PromptBuilder

  // ---------------------------------------------------------------- imports

  /** Filtering a concatenation filters each half, so the order of the lines is kept. */
  lemma {:induction false} ImportsAppend(a: seq<string>, b: seq<string>)
    ensures Imports(a + b) == Imports(a) + Imports(b)
    decreases |b|
  {
    if |b| > 0 {
      var b' := b[..|b| - 1];
      assert (a + b)[..|a + b| - 1] == a + b';
      ImportsAppend(a, b');
    } else {
      assert a + b == a;
    }
  }

  /** A single line is kept exactly when it is an import line. */
  lemma ImportsSingle(line: string)
    ensures Imports([line]) == if IsImport(line) then [line] else []
  {
    assert [line][..0] == [];
  }

  /** A line is among the imports exactly when it is one of the lines and an import line. */
  lemma {:induction false} ImportsMembership(lines: seq<string>, x: string)
    ensures x in Imports(lines) <==> x in lines && IsImport(x)
    decreases |lines|
  {
    if |lines| > 0 {
      var init := lines[..|lines| - 1];
      ImportsMembership(init, x);
      assert lines == init + [lines[|lines| - 1]];
    }
  }

  /** There are no imports exactly when no line is an import line. */
  lemma ImportsEmpty(lines: seq<string>)
    ensures Imports(lines) == [] <==> forall k :: 0 <= k < |lines| ==> !IsImport(lines[k])
  {
    if Imports(lines) != [] {
      ImportsMembership(lines, Imports(lines)[0]);
    }
    forall k | 0 <= k < |lines| && IsImport(lines[k])
      ensures Imports(lines) != []
    {
      ImportsMembership(lines, lines[k]);
    }
  }

  /** The test is literal: no trimming, and the keyword must be followed by a space. */
  lemma ImportTestIsLiteral()
    ensures IsImport("import os")
    ensures IsImport("from typing import List")
    ensures !IsImport("    import x")
    ensures !IsImport("importlib")
    ensures !IsImport("")
  {
    var indented := "    import x";
    assert indented[..7][0] == ' ' && "import "[0] == 'i';
    assert indented[..5][0] == ' ' && "from "[0] == 'f';
    var lib := "importlib";
    assert lib[..7][6] == 'l' && "import "[6] == ' ';
    assert lib[..5][0] == 'i';
  }

  /** Every import line begins with `i` or `f`. */
  lemma ImportFirstChar(line: string)
    requires IsImport(line)
    ensures line[0] == 'i' || line[0] == 'f'
  {
    if StartsWith(line, "import ") {
      assert line[..7][0] == line[0];
    } else {
      assert line[..5][0] == line[0];
    }
  }

  // ---------------------------------------------------------------- context window

  /**
   Last match wins: once line `m` matches and no later line among the first
   `k` does, the context is the window around the first line whose text equals
   line `m`; earlier matches have no effect.
   */
  lemma {:induction false} LastMatchWins(lines: seq<string>, name: Option<string>, c: int, k: nat, m: nat)
    requires m < k <= |lines|
    requires Matches(name, lines[m])
    requires forall i :: m < i < k ==> !Matches(name, lines[i])
    ensures ContextAfter(lines, name, c, k) == Window(lines, FirstIndexOf(lines, lines[m]), c)
    decreases k
  {
    if k - 1 > m {
      LastMatchWins(lines, name, c, k - 1, m);
    }
  }

  /** Without a match among the first `k` lines the context stays empty. */
  lemma {:induction false} NoMatchNoContext(lines: seq<string>, name: Option<string>, c: int, k: nat)
    requires k <= |lines|
    requires forall i :: 0 <= i < k ==> !Matches(name, lines[i])
    ensures ContextAfter(lines, name, c, k) == []
    decreases k
  {
    if k > 0 {
      NoMatchNoContext(lines, name, c, k - 1);
    }
  }

  /** Without a name, or with an empty one, nothing matches and the context is empty. */
  lemma NoNameNoContext(lines: seq<string>, name: Option<string>, c: int)
    requires !HasName(name)
    ensures ContextWindow(lines, name, c) == []
  {
    NoMatchNoContext(lines, name, c, |lines|);
  }

  /**
   For `c >= 0` the window around line `j` is the contiguous run
   `[max(0, j - c), min(n, j + c))`: `min(j, c)` lines before `j` and
   `min(n - j, c)` from `j` on, so at most `2 * c` lines, none when `c == 0`,
   and line `j` itself is included exactly when `c >= 1`.
   */
  lemma WindowShape(lines: seq<string>, j: int, c: int)
    requires 0 <= j < |lines| && c >= 0
    ensures Window(lines, j, c) == lines[Max(0, j - c)..Min(|lines|, j + c)]
    ensures |Window(lines, j, c)| == Min(j, c) + Min(|lines| - j, c)
    ensures |Window(lines, j, c)| <= 2 * c
    ensures c == 0 ==> Window(lines, j, c) == []
    ensures c >= 1 ==> Window(lines, j, c)[j - Max(0, j - c)] == lines[j]
  {
    SliceSpec(lines, Max(0, j - c), Min(|lines|, j + c));
  }

  /** After any number of scanned lines the context is empty or a window around some line. */
  lemma {:induction false} ContextIsAWindow(lines: seq<string>, name: Option<string>, c: int, k: nat)
    requires k <= |lines|
    ensures ContextAfter(lines, name, c, k) == []
         || exists j :: 0 <= j < |lines| && ContextAfter(lines, name, c, k) == Window(lines, j, c)
    decreases k
  {
    if k > 0 && !Matches(name, lines[k - 1]) {
      ContextIsAWindow(lines, name, c, k - 1);
    }
  }

  /**
   For `c >= 0` the context is a contiguous run of the lines, at most `2 * c`
   long, and empty when `c == 0`.
   */
  lemma ContextBounds(lines: seq<string>, name: Option<string>, c: int)
    requires c >= 0
    ensures exists a, b :: 0 <= a <= b <= |lines| && ContextWindow(lines, name, c) == lines[a..b]
    ensures |ContextWindow(lines, name, c)| <= 2 * c
    ensures c == 0 ==> ContextWindow(lines, name, c) == []
  {
    var w := ContextWindow(lines, name, c);
    ContextIsAWindow(lines, name, c, |lines|);
    if w == [] {
      assert w == lines[0..0];
    } else {
      var j :| 0 <= j < |lines| && w == Window(lines, j, c);
      WindowShape(lines, j, c);
    }
  }

  /**
   The window property over the whole text: when line `m` is the last line
   that mentions a non-empty name and `c >= 0`, the context is
   `lines[max(0, j - c) .. min(n, j + c)]` for the first position `j` holding
   the text of line `m`.
   */
  lemma LastMatchWindow(lines: seq<string>, name: Option<string>, c: int, m: nat)
    requires m < |lines| && c >= 0
    requires Matches(name, lines[m])
    requires forall i :: m < i < |lines| ==> !Matches(name, lines[i])
    ensures var j := FirstIndexOf(lines, lines[m]);
      && j <= m
      && (forall i :: 0 <= i < j ==> lines[i] != lines[m])
      && ContextWindow(lines, name, c) == lines[Max(0, j - c)..Min(|lines|, j + c)]
  {
    var j := FirstIndexOf(lines, lines[m]);
    LastMatchWins(lines, name, c, |lines|, m);
    WindowShape(lines, j, c);
  }

  /**
   With repeated lines the window is centred on the earliest copy: here the
   last match is line 4, but its text first appears at line 0.
   */
  lemma DuplicateLinesCentreOnFirstCopy()
    ensures ContextWindow(["a()", "b", "c", "d", "a()"], Some("a"), 1) == ["a()"]
  {
    var lines := ["a()", "b", "c", "d", "a()"];
    assert Lower("a") == "a";
    assert Lower("a()") == "a()";
    assert StartsWith(Lower(lines[4]), Lower("a"));
    assert Matches(Some("a"), lines[4]);
    assert FirstIndexOf(lines, "a()") == 0;
    SliceSpec(lines, 0, 1);
  }

  /**
   A negative `context_lines` gives the empty window unless `j < -c`: then the
   end bound `j + c` is negative, and Python reads it from the end of the
   list, while the start bound `j - c` lies past `j`.
   */
  lemma NegativeWindow(lines: seq<string>, j: int, c: int)
    requires 0 <= j < |lines| && c < 0
    ensures j + c >= 0 ==> Window(lines, j, c) == []
    ensures j + c < 0 ==> Window(lines, j, c) == Slice(lines, j - c, |lines| + j + c)
  {
  }

  /**
   One case where the wrap-around gives a non-empty window: with ten lines,
   `j = 2` and `c = -3` the slice is `lines[5:-1]`, that is lines 5 to 8.
   */
  lemma NegativeContextWraps(lines: seq<string>)
    requires |lines| == 10
    ensures Window(lines, 2, -3) == lines[5..9]
  {
    SliceSpec(lines, 5, -1);
    SliceSpec(lines, 5, 9);
  }

  // ---------------------------------------------------------------- layout

  /**
   The sections: 10 without a name and 17 with one, opening with the header
   and closing with the footer, the imports at position 3, the context at
   position 5 and the task description at position 7.
   */
  lemma PartsLayout(imports: seq<string>, context: seq<string>, task: string, name: Option<string>)
    ensures var parts := PromptParts(imports, context, task, name);
      && |parts| == (if HasName(name) then 17 else 10)
      && parts[0] == Header
      && parts[|parts| - 2] == GeneratedHeading
      && parts[|parts| - 1] == Footer
      && parts[3] == (if imports == [] then NoImports else JoinWith("\n", imports))
      && parts[5] == (if context == [] then NoContext else JoinWith("\n", context))
      && parts[7] == TaskPrefix + task
  {
  }

  /**
   The guidance block (function-name line, introduction, five bullets) is
   present exactly when a non-empty name is given, whatever the context;
   without it the task description is followed directly by the closing
   sections.
   */
  lemma GuidanceIffName(imports: seq<string>, context: seq<string>, task: string, name: Option<string>)
    ensures var parts := PromptParts(imports, context, task, name);
      && (HasName(name) ==> parts[8..15] == Guidance(name.value))
      && (!HasName(name) ==> parts[8..] == [GeneratedHeading, Footer])
  {
  }

  /** The joined imports never read as the placeholder. */
  lemma JoinedImportsNotPlaceholder(lines: seq<string>)
    requires Imports(lines) != []
    ensures JoinWith("\n", Imports(lines)) != NoImports
  {
    var imports := Imports(lines);
    var joined := JoinWith("\n", imports);
    JoinStartsWith("\n", imports);
    ImportFirstChar(imports[0]);
    assert joined[..|imports[0]|][0] == joined[0];
    assert NoImports[0] == 'N';
  }

  /** The imports section is the placeholder exactly when no line is an import line. */
  lemma ImportsSectionPlaceholder(lines: seq<string>, context: seq<string>, task: string, name: Option<string>)
    ensures PromptParts(Imports(lines), context, task, name)[3] == NoImports
        <==> forall k :: 0 <= k < |lines| ==> !IsImport(lines[k])
  {
    PartsLayout(Imports(lines), context, task, name);
    ImportsEmpty(lines);
    if Imports(lines) != [] {
      JoinedImportsNotPlaceholder(lines);
    }
  }

  /**
   The prompt text opens with the header, closes with the footer and contains
   the task description verbatim.
   */
  lemma PromptText(code: string, task: string, name: Option<string>, c: int)
    ensures StartsWith(GeneratePrompt(code, task, name, c), Header)
    ensures EndsWith(GeneratePrompt(code, task, name, c), Footer)
    ensures Contains(GeneratePrompt(code, task, name, c), TaskPrefix + task)
    ensures Contains(GeneratePrompt(code, task, name, c), task)
  {
    var lines := SplitLines(code);
    var parts := PromptParts(Imports(lines), ContextWindow(lines, name, c), task, name);
    PartsLayout(Imports(lines), ContextWindow(lines, name, c), task, name);
    JoinStartsWith("\n\n", parts);
    JoinEndsWith("\n\n", parts);
    JoinContains("\n\n", parts, 7);
    ContainsSuffixOf(GeneratePrompt(code, task, name, c), TaskPrefix, task);
  }

  /** Without import lines the prompt shows the imports placeholder. */
  lemma PromptNoImports(code: string, task: string, name: Option<string>, c: int)
    requires forall line :: line in SplitLines(code) ==> !IsImport(line)
    ensures Contains(GeneratePrompt(code, task, name, c), NoImports)
  {
    var lines := SplitLines(code);
    var parts := PromptParts(Imports(lines), ContextWindow(lines, name, c), task, name);
    ImportsSectionPlaceholder(lines, ContextWindow(lines, name, c), task, name);
    JoinContains("\n\n", parts, 3);
  }

  /**
   Whenever the computed context is empty (no name, no matching line, or an
   empty window such as `c == 0`) the prompt shows the context placeholder.
   */
  lemma PromptNoContext(code: string, task: string, name: Option<string>, c: int)
    requires ContextWindow(SplitLines(code), name, c) == []
    ensures Contains(GeneratePrompt(code, task, name, c), NoContext)
  {
    var lines := SplitLines(code);
    var parts := PromptParts(Imports(lines), ContextWindow(lines, name, c), task, name);
    PartsLayout(Imports(lines), ContextWindow(lines, name, c), task, name);
    JoinContains("\n\n", parts, 5);
  }

  /** Without a name, or when no line mentions it, the prompt shows the context placeholder. */
  lemma PromptNoMatchNoContext(code: string, task: string, name: Option<string>, c: int)
    requires !HasName(name) || forall line :: line in SplitLines(code) ==> !ContainsCI(line, name.value)
    ensures Contains(GeneratePrompt(code, task, name, c), NoContext)
  {
    var lines := SplitLines(code);
    NoMatchNoContext(lines, name, c, |lines|);
    PromptNoContext(code, task, name, c);
  }

  /** With a non-empty name the prompt names the function to implement. */
  lemma PromptNamesFunction(code: string, task: string, name: Option<string>, c: int)
    requires HasName(name)
    ensures Contains(GeneratePrompt(code, task, name, c), FunctionPrefix + name.value)
  {
    var lines := SplitLines(code);
    var parts := PromptParts(Imports(lines), ContextWindow(lines, name, c), task, name);
    GuidanceIffName(Imports(lines), ContextWindow(lines, name, c), task, name);
    assert parts[8] == FunctionPrefix + name.value;
    JoinContains("\n\n", parts, 8);
  }

  // ---------------------------------------------------------------- scenarios

  /** The three-line example splits into its three lines. */
  lemma ScenarioFooLines()
    ensures SplitLines("import os\ndef foo():\n    pass") == ["import os", "def foo():", "    pass"]
  {
    var lines := ["import os", "def foo():", "    pass"];
    assert JoinWith("\n", lines) == "import os\ndef foo():\n    pass";
    SplitJoin(lines);
  }

  /** Of the three lines only the first is an import line. */
  lemma ScenarioFooImports()
    ensures Imports(["import os", "def foo():", "    pass"]) == ["import os"]
  {
    var a, b, p := "import os", "def foo():", "    pass";
    assert IsImport(a);
    NotImportByFirstChar(b);
    NotImportByFirstChar(p);
    ImportsSingle(a);
    ImportsSingle(b);
    ImportsSingle(p);
    ImportsAppend([a], [b]);
    ImportsAppend([a] + [b], [p]);
    assert [a, b, p] == [a] + [b] + [p];
  }

  /** A line that begins with neither `i` nor `f` is not an import line. */
  lemma NotImportByFirstChar(line: string)
    requires |line| > 0 && line[0] != 'i' && line[0] != 'f'
    ensures !IsImport(line)
  {
    if IsImport(line) {
      ImportFirstChar(line);
    }
  }

  /** `foo` does not occur in `    pass`. */
  lemma ScenarioFooPassNoMatch()
    ensures !Matches(Some("foo"), "    pass")
  {
    var pass := "    pass";
    LowerSpec(pass);
    assert Lower(pass) == pass;
    assert Lower("foo") == "foo";
    ContainsSpec(pass, "foo");
    forall i | 0 <= i && i + 3 <= |pass|
      ensures !OccursAt(pass, "foo", i)
    {
      assert pass[i..i + 3][0] == pass[i] != 'f';
    }
  }

  /** `foo` occurs in `def foo():`. */
  lemma ScenarioFooDefMatches()
    ensures Matches(Some("foo"), "def foo():")
  {
    var def := "def foo():";
    LowerSpec(def);
    assert Lower(def) == def;
    assert Lower("foo") == "foo";
    ContainsSpec(def, "foo");
    assert def[4..7] == "foo";
    assert OccursAt(def, "foo", 4);
  }

  /**
   Three lines, target `foo`, one line of context: the window is `[0, 2)`,
   the import and the `def` line; the line after the match falls outside the
   half-open window.
   */
  lemma ScenarioFooContext()
    ensures ContextWindow(["import os", "def foo():", "    pass"], Some("foo"), 1) == ["import os", "def foo():"]
  {
    var lines := ["import os", "def foo():", "    pass"];
    ScenarioFooPassNoMatch();
    ScenarioFooDefMatches();
    LastMatchWins(lines, Some("foo"), 1, 3, 1);
    assert FirstIndexOf(lines, lines[1]) == 1;
    SliceSpec(lines, 0, 2);
  }

  /**
   The prompt for the three-line example is the join of the sections built
   from `import os` as the imports and the two-line window as the context.
   */
  lemma ScenarioFooGenerate()
    ensures GeneratePrompt("import os\ndef foo():\n    pass", "add bar", Some("foo"), 1)
         == JoinWith("\n\n", PromptParts(["import os"], ["import os", "def foo():"], "add bar", Some("foo")))
  {
    ScenarioFooLines();
    ScenarioFooImports();
    ScenarioFooContext();
  }

  /**
   The sections of that prompt (by `ScenarioFooGenerate`): `import os` as the imports, the two-line
   window as the context, the task description, and `foo` in the guidance.
   */
  lemma ScenarioFooPrompt()
    ensures var parts := PromptParts(["import os"], ["import os", "def foo():"], "add bar", Some("foo"));
      && |parts| == 17
      && parts[3] == "import os"
      && parts[5] == "import os\ndef foo():"
      && parts[7] == "Task description: add bar"
      && parts[8] == "\nFunction name to implement: foo"
  {
    var imports := ["import os"];
    var context := ["import os", "def foo():"];
    PartsLayout(imports, context, "add bar", Some("foo"));
    GuidanceIffName(imports, context, "add bar", Some("foo"));
    assert JoinWith("\n", imports) == "import os";
    assert JoinWith("\n", context) == "import os\ndef foo():";
  }

  /**
   Empty code with the default name and context size: both placeholders
   appear and there is no guidance block.
   */
  lemma ScenarioEmpty()
    ensures var parts := PromptParts(Imports(SplitLines("")), ContextWindow(SplitLines(""), None, 5), "x", None);
      && |parts| == 10
      && parts[3] == NoImports
      && parts[5] == NoContext
    ensures GeneratePrompt("", "x") == JoinWith("\n\n", PromptParts([], [], "x", None))
  {
    assert SplitLines("") == [""];
    ImportsSingle("");
    NoNameNoContext([""], None, 5);
  }
}
