/**
 String primitives the prompt builder relies on, written after the Python
 built-ins it calls: `str.split('\n')`, `sep.join(parts)`, `str.startswith`,
 `str.lower()` (restricted to ASCII) and the substring test `needle in hay`.
 */
module Text {

  /** Number of occurrences of `ch` in `s`. */
  function CountChar(s: string, ch: char): nat
    decreases |s|
  {
    if |s| == 0 then 0
    else (if s[0] == ch then 1 else 0) + CountChar(s[1..], ch)
  }

  /** Python's `s.startswith(p)`. */
  predicate StartsWith(s: string, p: string)
  {
    |p| <= |s| && s[..|p|] == p
  }

  /** Python's `s.endswith(p)`. */
  predicate EndsWith(s: string, p: string)
  {
    |p| <= |s| && s[|s| - |p|..] == p
  }

  /** `needle` occurs in `hay` starting at position `i`. */
  ghost predicate OccursAt(hay: string, needle: string, i: int)
  {
    0 <= i && i + |needle| <= |hay| && hay[i..i + |needle|] == needle
  }

  /** Python's substring test `needle in hay`; the empty needle occurs everywhere. */
  predicate Contains(hay: string, needle: string)
    decreases |hay|
  {
    StartsWith(hay, needle) || (|hay| > 0 && Contains(hay[1..], needle))
  }

  /** The substring test holds exactly when the needle occurs at some position. */
  lemma {:induction false} ContainsSpec(hay: string, needle: string)
    ensures Contains(hay, needle) <==> exists i :: OccursAt(hay, needle, i)
    decreases |hay|
  {
    if |hay| > 0 {
      ContainsSpec(hay[1..], needle);
    }
    if StartsWith(hay, needle) {
      assert OccursAt(hay, needle, 0);
    } else if |hay| > 0 && Contains(hay[1..], needle) {
      var i :| OccursAt(hay[1..], needle, i);
      assert hay[1..][i..i + |needle|] == hay[i + 1..i + 1 + |needle|];
      assert OccursAt(hay, needle, i + 1);
    }
    forall i | OccursAt(hay, needle, i)
      ensures Contains(hay, needle)
    {
      if i == 0 {
        assert hay[..|needle|] == needle;
      } else {
        assert hay[1..][i - 1..i - 1 + |needle|] == hay[i..i + |needle|];
        assert OccursAt(hay[1..], needle, i - 1);
      }
    }
  }

  /** An occurrence inside one piece of a concatenation is an occurrence in the whole. */
  lemma OccursInConcat(a: string, b: string, needle: string, i: int)
    ensures OccursAt(a, needle, i) ==> OccursAt(a + b, needle, i)
    ensures OccursAt(b, needle, i) ==> OccursAt(a + b, needle, |a| + i)
  {
    if OccursAt(a, needle, i) {
      assert (a + b)[i..i + |needle|] == a[i..i + |needle|];
    }
    if OccursAt(b, needle, i) {
      assert (a + b)[|a| + i..|a| + i + |needle|] == b[i..i + |needle|];
    }
  }

  /** An occurrence of `p + t` contains an occurrence of `t`. */
  lemma ContainsSuffixOf(hay: string, p: string, t: string)
    requires Contains(hay, p + t)
    ensures Contains(hay, t)
  {
    ContainsSpec(hay, p + t);
    ContainsSpec(hay, t);
    var i :| OccursAt(hay, p + t, i);
    assert hay[i + |p|..i + |p| + |t|] == (p + t)[|p|..];
    assert OccursAt(hay, t, i + |p|);
  }

  /** ASCII lower-casing of one character. */
  function LowerChar(ch: char): char
  {
    if 'A' <= ch <= 'Z' then (ch as int + 32) as char else ch
  }

  /** Python's `s.lower()`, restricted to the ASCII letters. */
  function Lower(s: string): (r: string)
    ensures |r| == |s|
    ensures forall i :: 0 <= i < |s| ==> r[i] == LowerChar(s[i])
  {
    seq(|s|, i requires 0 <= i < |s| => LowerChar(s[i]))
  }

  /** Lower-casing leaves no upper-case ASCII letter and changes nothing else. */
  lemma LowerSpec(s: string)
    ensures forall i :: 0 <= i < |s| ==> !('A' <= Lower(s)[i] <= 'Z')
    ensures forall i :: 0 <= i < |s| && !('A' <= s[i] <= 'Z') ==> Lower(s)[i] == s[i]
    ensures Lower(Lower(s)) == Lower(s)
  {
  }

  /** Python's `needle.lower() in hay.lower()`. */
  predicate ContainsCI(hay: string, needle: string)
  {
    Contains(Lower(hay), Lower(needle))
  }

  /** The case-insensitive test ignores the case of both of its arguments. */
  lemma ContainsCIIgnoresCase(hay: string, needle: string)
    ensures ContainsCI(Lower(hay), needle) == ContainsCI(hay, needle)
    ensures ContainsCI(hay, Lower(needle)) == ContainsCI(hay, needle)
  {
    LowerSpec(hay);
    LowerSpec(needle);
  }

  /**
   Python's `s.split('\n')`: the pieces between newline characters, so the
   empty string gives one empty piece and every newline starts a new piece.
   */
  function SplitLines(s: string): (r: seq<string>)
    ensures |r| == CountChar(s, '\n') + 1
    ensures forall k :: 0 <= k < |r| ==> '\n' !in r[k]
    decreases |s|
  {
    if |s| == 0 then [""]
    else
      var rest := SplitLines(s[1..]);
      if s[0] == '\n' then [""] + rest
      else [[s[0]] + rest[0]] + rest[1..]
  }

  /** Python's `sep.join(parts)`. */
  function JoinWith(sep: string, parts: seq<string>): (r: string)
    ensures |parts| > 0 ==> |r| == TotalLength(parts) + (|parts| - 1) * |sep|
    ensures |parts| == 0 ==> r == ""
    decreases |parts|
  {
    if |parts| == 0 then ""
    else if |parts| == 1 then parts[0]
    else parts[0] + sep + JoinWith(sep, parts[1..])
  }

  /** Sum of the lengths of the pieces. */
  function TotalLength(parts: seq<string>): nat
    decreases |parts|
  {
    if |parts| == 0 then 0 else |parts[0]| + TotalLength(parts[1..])
  }

  /** Extending the first piece of a join extends the joined text in front. */
  lemma JoinConsHead(sep: string, a: string, b: string, tail: seq<string>)
    ensures JoinWith(sep, [a + b] + tail) == a + JoinWith(sep, [b] + tail)
  {
    if |tail| > 0 {
      assert ([a + b] + tail)[1..] == tail;
      assert ([b] + tail)[1..] == tail;
    }
  }

  /** Joining the pieces of a split gives back the original text. */
  lemma {:induction false} JoinSplit(s: string)
    ensures JoinWith("\n", SplitLines(s)) == s
    decreases |s|
  {
    if |s| > 0 {
      var rest := SplitLines(s[1..]);
      JoinSplit(s[1..]);
      if s[0] == '\n' {
        assert ([""] + rest)[1..] == rest;
        assert s == "\n" + s[1..];
      } else {
        assert [rest[0]] + rest[1..] == rest;
        JoinConsHead("\n", [s[0]], rest[0], rest[1..]);
        assert s == [s[0]] + s[1..];
      }
    }
  }

  /** Splitting text whose first piece has no newline peels that piece off. */
  lemma {:induction false} SplitPrefix(p: string, t: string)
    requires '\n' !in p
    ensures SplitLines(p + t) == [p + SplitLines(t)[0]] + SplitLines(t)[1..]
    decreases |p|
  {
    if |p| > 0 {
      assert (p + t)[1..] == p[1..] + t;
      SplitPrefix(p[1..], t);
      assert p + SplitLines(t)[0] == [p[0]] + (p[1..] + SplitLines(t)[0]);
    } else {
      assert p + t == t;
      assert p + SplitLines(t)[0] == SplitLines(t)[0];
      assert [SplitLines(t)[0]] + SplitLines(t)[1..] == SplitLines(t);
    }
  }

  /** Splitting the join of newline-free pieces gives back the pieces. */
  lemma {:induction false} SplitJoin(parts: seq<string>)
    requires |parts| > 0
    requires forall k :: 0 <= k < |parts| ==> '\n' !in parts[k]
    ensures SplitLines(JoinWith("\n", parts)) == parts
    decreases |parts|
  {
    var p := parts[0];
    if |parts| == 1 {
      SplitPrefix(p, "");
      assert p + "" == p;
      assert SplitLines("") == [""];
    } else {
      var x := JoinWith("\n", parts[1..]);
      SplitJoin(parts[1..]);
      assert p + "\n" + x == p + ("\n" + x);
      SplitPrefix(p, "\n" + x);
      assert ("\n" + x)[1..] == x;
      var rest := SplitLines("\n" + x);
      assert rest == [""] + parts[1..];
      assert rest[0] == "" && rest[1..] == parts[1..];
      assert p + "" == p;
      assert JoinWith("\n", parts) == p + ("\n" + x);
      assert parts == [p] + parts[1..];
    }
  }

  /** The joined text starts with the first piece. */
  lemma JoinStartsWith(sep: string, parts: seq<string>)
    requires |parts| > 0
    ensures StartsWith(JoinWith(sep, parts), parts[0])
  {
    if |parts| > 1 {
      assert (parts[0] + sep + JoinWith(sep, parts[1..]))[..|parts[0]|] == parts[0];
    }
  }

  /** The joined text ends with the last piece. */
  lemma {:induction false} JoinEndsWith(sep: string, parts: seq<string>)
    requires |parts| > 0
    ensures EndsWith(JoinWith(sep, parts), parts[|parts| - 1])
    decreases |parts|
  {
    if |parts| > 1 {
      var tail := JoinWith(sep, parts[1..]);
      JoinEndsWith(sep, parts[1..]);
      var last := parts[|parts| - 1];
      var whole := parts[0] + sep + tail;
      assert whole[|whole| - |last|..] == tail[|tail| - |last|..];
    }
  }

  /** Every piece occurs in the joined text. */
  lemma {:induction false} JoinContains(sep: string, parts: seq<string>, k: nat)
    requires k < |parts|
    ensures Contains(JoinWith(sep, parts), parts[k])
    decreases k
  {
    var r := JoinWith(sep, parts);
    ContainsSpec(r, parts[k]);
    if k == 0 {
      JoinStartsWith(sep, parts);
      assert OccursAt(r, parts[0], 0);
    } else {
      var tail := JoinWith(sep, parts[1..]);
      JoinContains(sep, parts[1..], k - 1);
      ContainsSpec(tail, parts[k]);
      var i :| OccursAt(tail, parts[k], i);
      OccursInConcat(parts[0] + sep, tail, parts[k], i);
    }
  }
}
