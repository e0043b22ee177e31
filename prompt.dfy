/** The yes/no prompt asked before checking the configuration repository for
    updates: each answer line is trimmed and classified; an unrecognised
    answer asks again, and end of input counts as the default "yes". */
module Prompt {
  /** The characters Rust's `char::is_whitespace` accepts (White_Space). */
  predicate IsWhitespace(c: char)
  {
    ('\U{0009}' <= c <= '\U{000D}') || c == '\U{0020}' || c == '\U{0085}'
    || c == '\U{00A0}' || c == '\U{1680}' || ('\U{2000}' <= c <= '\U{200A}')
    || c == '\U{2028}' || c == '\U{2029}' || c == '\U{202F}' || c == '\U{205F}'
    || c == '\U{3000}'
  }

  predicate AllWhitespace(s: string)
  {
    forall i :: 0 <= i < |s| ==> IsWhitespace(s[i])
  }

  /** Drops leading whitespace. */
  function TrimStart(s: string): string
  {
    if s != [] && IsWhitespace(s[0]) then TrimStart(s[1..]) else s
  }

  /** Drops trailing whitespace. */
  function TrimEnd(s: string): string
  {
    if s != [] && IsWhitespace(s[|s| - 1]) then TrimEnd(s[..|s| - 1]) else s
  }

  /** `TrimStart` keeps the suffix of `s` that starts at the first
      non-whitespace character. */
  lemma {:induction false} TrimStartShape(s: string)
    ensures var r := TrimStart(s);
      && |r| <= |s| && r == s[|s| - |r|..]
      && AllWhitespace(s[..|s| - |r|])
      && (r == [] || !IsWhitespace(r[0]))
  {
    if s != [] && IsWhitespace(s[0]) {
      TrimStartShape(s[1..]);
      var r := TrimStart(s[1..]);
      assert s[..|s| - |r|] == [s[0]] + s[1..][..|s| - 1 - |r|];
    }
  }

  /** `TrimEnd` keeps the prefix of `s` that ends at the last
      non-whitespace character. */
  lemma {:induction false} TrimEndShape(s: string)
    ensures var r := TrimEnd(s);
      && |r| <= |s| && r == s[..|r|]
      && AllWhitespace(s[|r|..])
      && (r == [] || !IsWhitespace(r[|r| - 1]))
  {
    if s != [] && IsWhitespace(s[|s| - 1]) {
      TrimEndShape(s[..|s| - 1]);
      var r := TrimEnd(s[..|s| - 1]);
      assert s[|r|..] == s[..|s| - 1][|r|..] + [s[|s| - 1]];
    }
  }

  /** `str::trim`: both ends stripped. */
  function Trim(s: string): string
  {
    TrimEnd(TrimStart(s))
  }

  /** The outcome of reading one answer line. */
  datatype Answer = Yes | No | Again

  /** Classifies one line as typed (with its line terminator, if any): the
      empty answer and the prefixes of "yes" accept, the prefixes of "no"
      decline, anything else asks again. */
  function Classify(line: string): (a: Answer)
    ensures Trim(line) == "" ==> a == Yes
    ensures a != Again ==> |Trim(line)| <= 3
  {
    var t := Trim(line);
    if t == "" || t == "y" || t == "ye" || t == "yes" then Yes
    else if t == "n" || t == "no" then No
    else Again
  }

  /** The accepted answers are exactly the prefixes of "yes" (the empty one
      included) and the declining ones the non-empty prefixes of "no". */
  lemma ClassifyByPrefix(line: string)
    ensures Classify(line) == Yes <==> Trim(line) <= "yes"
    ensures Classify(line) == No <==> Trim(line) != "" && Trim(line) <= "no"
    ensures Classify(line) == Again <==> !(Trim(line) <= "yes") && !(Trim(line) <= "no")
  {
    var t := Trim(line);
    assert "yes"[..0] == "" && "yes"[..1] == "y" && "yes"[..2] == "ye" && "yes"[..3] == "yes";
    assert "no"[..1] == "n" && "no"[..2] == "no";
    if t <= "yes" {
      assert t == "yes"[..|t|];
    }
    if t <= "no" {
      assert t == "no"[..|t|];
    }
  }

  /** The answer the prompt settles on, given the lines the user types; when
      input ends, reading yields an empty line and thus the default. */
  function PromptAnswer(lines: seq<string>): (yes: bool)
    ensures NoneDeclines(lines) ==> yes
  {
    if lines == [] then true
    else match Classify(lines[0])
      case Yes => true
      case No => false
      case Again => PromptAnswer(lines[1..])
  }

  /** No line says "no". */
  predicate NoneDeclines(lines: seq<string>)
  {
    forall j :: 0 <= j < |lines| ==> Classify(lines[j]) != No
  }

  /** Line `i` says "no" and every line before it was unrecognised. */
  predicate DeclinedAt(lines: seq<string>, i: int)
  {
    0 <= i < |lines| && Classify(lines[i]) == No && AllAgain(lines[..i])
  }

  /** The prompt declines exactly when some line says "no" and every line
      before it was unrecognised. */
  lemma {:induction false} DeclinesIff(lines: seq<string>)
    ensures !PromptAnswer(lines) <==> exists i :: DeclinedAt(lines, i)
  {
    if lines == [] {
    } else if Classify(lines[0]) == No {
      assert AllAgain(lines[..0]);
      assert DeclinedAt(lines, 0);
    } else if Classify(lines[0]) == Yes {
    } else {
      DeclinesIff(lines[1..]);
      DeclinedShift(lines);
    }
  }

  /** Behind an unrecognised first line, the prompt declines at line `i + 1`
      exactly when it declines at line `i` of the rest. */
  lemma DeclinedShift(lines: seq<string>)
    requires lines != [] && Classify(lines[0]) == Again
    ensures (exists i :: DeclinedAt(lines, i)) <==> (exists i :: DeclinedAt(lines[1..], i))
  {
    if i :| DeclinedAt(lines[1..], i) {
      DeclinedLater(lines, i);
    }
    if i :| DeclinedAt(lines, i) {
      DeclinedEarlier(lines, i);
    }
  }

  lemma DeclinedLater(lines: seq<string>, i: int)
    requires lines != [] && Classify(lines[0]) == Again && DeclinedAt(lines[1..], i)
    ensures DeclinedAt(lines, i + 1)
  {
    AgainPrefix(lines, i);
    assert lines[1..][i] == lines[i + 1];
  }

  lemma DeclinedEarlier(lines: seq<string>, i: int)
    requires lines != [] && Classify(lines[0]) == Again && DeclinedAt(lines, i)
    ensures i > 0 && DeclinedAt(lines[1..], i - 1)
  {
    assert i != 0;
    assert lines[1..][i - 1] == lines[i];
    AgainPrefix(lines, i - 1);
  }

  /** Behind an unrecognised first line, the first `i + 1` lines are all
      unrecognised exactly when the `i` lines after it are. */
  lemma AgainPrefix(lines: seq<string>, i: nat)
    requires i < |lines| && Classify(lines[0]) == Again
    ensures AllAgain(lines[..i + 1]) <==> AllAgain(lines[1..][..i])
  {
    var longer, shorter := lines[..i + 1], lines[1..][..i];
    assert longer == [lines[0]] + shorter;
    if AllAgain(shorter) {
      forall j | 0 <= j < |longer|
        ensures Classify(longer[j]) == Again
      {
        if j > 0 {
          assert longer[j] == shorter[j - 1];
        }
      }
    }
    if AllAgain(longer) {
      forall j | 0 <= j < |shorter|
        ensures Classify(shorter[j]) == Again
      {
        assert shorter[j] == longer[j + 1];
      }
    }
  }

  predicate AllAgain(lines: seq<string>)
  {
    forall j :: 0 <= j < |lines| ==> Classify(lines[j]) == Again
  }

  /** Asks until an answer is recognised or input runs out. `asked` is the
      number of unrecognised lines read before the deciding one: it stops at
      the first recognised line, or at the end of input. */
  method Ask(lines: seq<string>) returns (yes: bool, asked: nat)
    ensures yes == PromptAnswer(lines)
    ensures asked <= |lines|
    ensures AllAgain(lines[..asked]) && PromptAnswer(lines[asked..]) == yes
    ensures asked == |lines| || Classify(lines[asked]) != Again
  {
    var rest := lines;
    asked := 0;
    while true
      invariant asked <= |lines| && rest == lines[asked..]
      invariant AllAgain(lines[..asked])
      invariant PromptAnswer(rest) == PromptAnswer(lines)
      decreases |rest|
    {
      if rest == [] {
        return true, asked;
      }
      var answer := Classify(rest[0]);
      if answer != Again {
        assert rest[0] == lines[asked];
        return answer == Yes, asked;
      }
      AgainStep(lines, asked);
      assert PromptAnswer(rest) == PromptAnswer(rest[1..]);
      rest := rest[1..];
      asked := asked + 1;
    }
  }

  /** One more unrecognised line extends the unrecognised prefix. */
  lemma AgainStep(lines: seq<string>, n: nat)
    requires n < |lines| && AllAgain(lines[..n]) && Classify(lines[n]) == Again
    ensures AllAgain(lines[..n + 1])
  {
    assert lines[..n + 1] == lines[..n] + [lines[n]];
  }

  lemma {:induction false} TrimStartPadded(w: string, x: string)
    requires AllWhitespace(w)
    ensures TrimStart(w + x) == TrimStart(x)
    decreases |w|
  {
    if w == [] {
      assert w + x == x;
    } else {
      assert (w + x)[0] == w[0];
      assert (w + x)[1..] == w[1..] + x;
      TrimStartPadded(w[1..], x);
    }
  }

  lemma {:induction false} TrimEndPadded(x: string, w: string)
    requires AllWhitespace(w)
    ensures TrimEnd(x + w) == TrimEnd(x)
    decreases |w|
  {
    if w == [] {
      assert x + w == x;
    } else {
      assert (x + w)[|x + w| - 1] == w[|w| - 1];
      assert (x + w)[..|x + w| - 1] == x + w[..|w| - 1];
      TrimEndPadded(x, w[..|w| - 1]);
    }
  }

  lemma {:induction false} TrimTrailingPadding(s: string, w: string)
    requires AllWhitespace(w)
    ensures TrimEnd(TrimStart(s + w)) == TrimEnd(TrimStart(s))
    decreases |s|
  {
    if s == [] {
      assert s + w == w;
      TrimStartShape(w);
      var t := TrimStart(w);
      assert t == w[|w| - |t|..];
      assert AllWhitespace(t);
      TrimEndPadded([], t);
      assert [] + t == t;
    } else if IsWhitespace(s[0]) {
      assert (s + w)[1..] == s[1..] + w;
      TrimTrailingPadding(s[1..], w);
    } else {
      TrimEndPadded(s, w);
    }
  }

  /** Whitespace around an answer, such as the line terminator, never
      changes how it is classified. */
  lemma PaddingIgnored(w1: string, s: string, w2: string)
    requires AllWhitespace(w1) && AllWhitespace(w2)
    ensures Classify(w1 + s + w2) == Classify(s)
  {
    TrimPadded(w1, s, w2);
  }

  /** Trimming removes any whitespace padding on either side. */
  lemma TrimPadded(w1: string, s: string, w2: string)
    requires AllWhitespace(w1) && AllWhitespace(w2)
    ensures Trim(w1 + s + w2) == Trim(s)
  {
    var padded := w1 + (s + w2);
    assert w1 + s + w2 == padded;
    TrimStartPadded(w1, s + w2);
    assert TrimStart(padded) == TrimStart(s + w2);
    TrimTrailingPadding(s, w2);
    assert Trim(padded) == Trim(s);
  }
}
