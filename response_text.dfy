/**
 * The text surgery applied to model replies before and after JSON parsing:
 * `ContentProcessor._clean_json_text` (fence removal and the repair of LaTeX
 * backslashes inside JSON strings), the fence removal of
 * `_refine_latex_with_ai`, and the greedy `\{.*\}` span used when the strict
 * parse fails.
 */
module ResponseText {
  import opened Common
  import opened Text

  /** The Markdown code fence. */
  const Fence := "```"

  /** The characters that, after a backslash, form a JSON string escape the
      cleaner keeps as it is (`\n`, `\t`, `\"`). */
  const JsonEscapes: set<char> := {'n', 't', '"'}

  /** The text after the first newline (`s.find("\n")` / `s.split("\n", 1)[1]`),
      or `s` itself when it holds no newline. */
  function AfterFirstLine(s: string): (r: string)
    ensures |r| <= |s| && r == s[|s| - |r|..]
  {
    match FindChar(s, '\n')
    case Some(i) => s[i + 1..]
    case None => s
  }

  /** The fence removal of the cleaner on already stripped text: a leading
      fence line is dropped, then a trailing fence, each on its own test. */
  function StripFence(t: string): (r: string)
    ensures |r| <= |t|
  {
    var afterOpen := if StartsWith(t, Fence) then AfterFirstLine(t) else t;
    if EndsWith(afterOpen, Fence) then BeforeLast(afterOpen, Fence) else afterOpen
  }

  /** The four replacements of the cleaner: every backslash doubled, then `\\n`, `\\t` and `\\"` undoubled. */
  function RepairBackslashes(t: string): string {
    var doubled := Replace(t, "\\", "\\\\");
    Replace(Replace(Replace(doubled, "\\\\n", "\\n"), "\\\\t", "\\t"), "\\\\\"", "\\\"")
  }

  /** `_clean_json_text(text)`: the result carries no whitespace at its ends. */
  function CleanJsonText(text: string): (r: string)
    ensures IsStripped(r)
  {
    Strip(RepairBackslashes(StripFence(Strip(text))))
  }

  /**
   * What the chain of replacements does, read left to right: a backslash
   * followed by a character of `keep` stays a single backslash (the pair is
   * copied), and every other backslash is doubled.
   */
  function Escaped(s: string, keep: set<char>): string
    decreases |s|
  {
    if s == [] then []
    else if s[0] == '\\' && |s| > 1 && s[1] in keep then ['\\', s[1]] + Escaped(s[2..], keep)
    else if s[0] == '\\' then ['\\', '\\'] + Escaped(s[1..], keep)
    else [s[0]] + Escaped(s[1..], keep)
  }

  /** Doubling every backslash is the rule with nothing kept. */
  lemma {:induction false} DoubleIsEscaped(s: string)
    ensures Replace(s, "\\", "\\\\") == Escaped(s, {})
    decreases |s|
  {
    if s != [] {
      DoubleIsEscaped(s[1..]);
      if s[0] != '\\' {
        ReplaceNoMatchAt0(s, "\\", "\\\\");
      }
    }
  }

  /** `Escaped(t, keep)` never starts with a backslash followed by a character outside `keep` and other than a backslash. */
  lemma EscapedHead(t: string, keep: set<char>, c: char)
    requires c != '\\' && c !in keep
    ensures var e := Escaped(t, keep);
      |e| >= 2 && e[0] == '\\' ==> e[1] != c
  {
    var e := Escaped(t, keep);
    if t != [] && t[0] == '\\' {
      if |t| > 1 && t[1] in keep {
        assert e[1] == t[1];
      } else {
        assert e[1] == '\\';
      }
    } else if t != [] {
      assert e[0] == t[0];
    }
  }

  /** The goal of `UndoubleStep` for one string. */
  predicate UndoublesTo(s: string, keep: set<char>, c: char) {
    Replace(Escaped(s, keep), DoubledBefore(c), ['\\', c]) == Escaped(s, keep + {c})
  }

  /** Step of `UndoubleStep` over an escape that was kept already. */
  lemma UndoubleKept(s: string, keep: set<char>, c: char)
    requires c != '\\' && c !in keep && '\\' !in keep
    requires |s| > 1 && s[0] == '\\' && s[1] in keep
    requires UndoublesTo(s[2..], keep, c)
    ensures UndoublesTo(s, keep, c)
  {
    var pat := ['\\', '\\', c];
    var e := Escaped(s, keep);
    var rest := Escaped(s[2..], keep);
    assert e == ['\\', s[1]] + rest;
    assert !StartsWith(e, pat) by { if |e| >= 3 { assert e[..3][1] == s[1]; } }
    ReplaceNoMatchAt0(e, pat, ['\\', c]);
    assert e[1..] == [s[1]] + rest;
    ReplaceNoMatchAt0(e[1..], pat, ['\\', c]);
    assert e[1..][1..] == rest;
  }

  /** Step of `UndoubleStep` over the escape that is now kept. */
  lemma UndoubleNew(s: string, keep: set<char>, c: char)
    requires c != '\\' && c !in keep && '\\' !in keep
    requires |s| > 1 && s[0] == '\\' && s[1] == c
    requires UndoublesTo(s[2..], keep, c)
    ensures UndoublesTo(s, keep, c)
  {
    var pat := ['\\', '\\', c];
    var e := Escaped(s, keep);
    var rest := Escaped(s[2..], keep);
    assert Escaped(s[1..], keep) == [c] + rest;
    assert e == pat + rest;
    assert e[..3] == pat && e[3..] == rest;
  }

  /** The pattern `\\c` of `UndoubleStep`, with the backslash doubled. */
  function DoubledBefore(c: char): string { ['\\', '\\', c] }

  /** No match at the first two positions: the first two characters are copied. */
  lemma ReplaceSkipsTwo(e: string, pattern: string, replacement: string)
    requires pattern != [] && |e| >= 2 && !StartsWith(e, pattern) && !StartsWith(e[1..], pattern)
    ensures Replace(e, pattern, replacement) == e[..2] + Replace(e[2..], pattern, replacement)
  {
    ReplaceNoMatchAt0(e, pattern, replacement);
    ReplaceNoMatchAt0(e[1..], pattern, replacement);
    assert e[1..][1..] == e[2..];
    assert e[..2] == [e[0]] + [e[1..][0]];
  }

  /** A doubled backslash not followed by `c` or by `\c` is not un-doubled. */
  lemma ReplaceAfterDoubled(e: string, c: char)
    requires c != '\\' && |e| >= 3 && e[0] == '\\' && e[1] == '\\' && e[2] != c
    requires |e| >= 4 && e[2] == '\\' ==> e[3] != c
    ensures Replace(e, DoubledBefore(c), ['\\', c]) == e[..2] + Replace(e[2..], DoubledBefore(c), ['\\', c])
  {
    var pat := DoubledBefore(c);
    assert e[..3][2] == e[2];
    assert |e| >= 4 ==> e[1..][..3][1] == e[2] && e[1..][..3][2] == e[3];
    ReplaceSkipsTwo(e, pat, ['\\', c]);
  }

  /** Step of `UndoubleStep` over a backslash that stays doubled. */
  lemma UndoubleDoubled(s: string, keep: set<char>, c: char)
    requires c != '\\' && c !in keep && '\\' !in keep
    requires |s| > 1 && s[0] == '\\' && s[1] != c && s[1] !in keep
    requires UndoublesTo(s[1..], keep, c)
    ensures UndoublesTo(s, keep, c)
  {
    var e, tail := Escaped(s, keep), Escaped(s[1..], keep);
    assert e == ['\\', '\\'] + tail;
    assert tail[0] != c;
    EscapedHead(s[1..], keep, c);
    assert |tail| >= 2 ==> e[2] == tail[0] && e[3] == tail[1];
    ReplaceAfterDoubled(e, c);
    assert e[2..] == tail && e[..2] == ['\\', '\\'];
  }

  /** Step of `UndoubleStep` over a character other than a backslash. */
  lemma UndoublePlain(s: string, keep: set<char>, c: char)
    requires c != '\\' && c !in keep && '\\' !in keep
    requires s != [] && s[0] != '\\'
    requires UndoublesTo(s[1..], keep, c)
    ensures UndoublesTo(s, keep, c)
  {
    var e := Escaped(s, keep);
    assert e == [s[0]] + Escaped(s[1..], keep);
    assert e[0] == s[0];
    ReplaceNoMatchAt0(e, DoubledBefore(c), ['\\', c]);
    assert e[1..] == Escaped(s[1..], keep);
  }

  /**
   * Un-doubling the backslash before one more escape character `c` turns the
   * rule for `keep` into the rule for `keep + {c}`.
   */
  lemma {:induction false} UndoubleStep(s: string, keep: set<char>, c: char)
    requires c != '\\' && c !in keep && '\\' !in keep
    ensures Replace(Escaped(s, keep), ['\\', '\\', c], ['\\', c]) == Escaped(s, keep + {c})
    decreases |s|
  {
    if s == [] {
    } else if s[0] == '\\' && |s| > 1 && s[1] in keep {
      UndoubleStep(s[2..], keep, c);
      UndoubleKept(s, keep, c);
    } else if s[0] == '\\' && |s| > 1 && s[1] == c {
      UndoubleStep(s[2..], keep, c);
      UndoubleNew(s, keep, c);
    } else if s[0] == '\\' && |s| > 1 {
      UndoubleStep(s[1..], keep, c);
      UndoubleDoubled(s, keep, c);
    } else if s[0] == '\\' {
      assert Escaped(s, keep) == ['\\', '\\'];
    } else {
      UndoubleStep(s[1..], keep, c);
      UndoublePlain(s, keep, c);
    }
  }

  /** The four replacements of the cleaner together are the rule that keeps `\n`, `\t` and `\"`. */
  lemma ReplaceChainIsEscaped(t: string)
    ensures RepairBackslashes(t) == Escaped(t, JsonEscapes)
  {
    DoubleIsEscaped(t);
    UndoubleStep(t, {}, 'n');
    UndoubleStep(t, {'n'}, 't');
    UndoubleStep(t, {'n', 't'}, '"');
    assert {} + {'n'} == {'n'} && {'n'} + {'t'} == {'n', 't'} && {'n', 't'} + {'"'} == JsonEscapes;
  }

  /** The cleaner is: strip, remove the fences, apply the escape rule, strip again. */
  lemma CleanJsonIsEscaped(text: string)
    ensures CleanJsonText(text) == Strip(Escaped(StripFence(Strip(text)), JsonEscapes))
  {
    ReplaceChainIsEscaped(StripFence(Strip(text)));
  }

  /** Text without a backslash is left alone by the escape rule. */
  lemma {:induction false} EscapedNoBackslash(s: string, keep: set<char>)
    requires '\\' !in s
    ensures Escaped(s, keep) == s
    decreases |s|
  {
    if s != [] {
      EscapedNoBackslash(s[1..], keep);
      assert [s[0]] + s[1..] == s;
    }
  }

  /** The escape rule works piece by piece as long as a piece does not end in a backslash. */
  lemma {:induction false} EscapedAppend(x: string, y: string, keep: set<char>)
    requires x == [] || x[|x| - 1] != '\\'
    ensures Escaped(x + y, keep) == Escaped(x, keep) + Escaped(y, keep)
    decreases |x|
  {
    if x == [] {
      assert x + y == y;
    } else {
      var n := StepLength(x, keep);
      var head := StepOutput(x, keep);
      StepOfAppend(x, y, keep);
      assert x[n..] == [] || x[n..][|x[n..]| - 1] != '\\' by {
        if n < |x| { assert x[n..][|x[n..]| - 1] == x[|x| - 1]; }
      }
      EscapedAppend(x[n..], y, keep);
      assert head + (Escaped(x[n..], keep) + Escaped(y, keep)) == (head + Escaped(x[n..], keep)) + Escaped(y, keep);
    }
  }

  /** How many characters the first step of the rule consumes. */
  function StepLength(s: string, keep: set<char>): nat
    requires s != []
  {
    if s[0] == '\\' && |s| > 1 && s[1] in keep then 2 else 1
  }

  /** What the first step of the rule writes. */
  function StepOutput(s: string, keep: set<char>): string
    requires s != []
  {
    if s[0] == '\\' && |s| > 1 && s[1] in keep then ['\\', s[1]]
    else if s[0] == '\\' then ['\\', '\\']
    else [s[0]]
  }

  /** A piece that does not end in a backslash takes its first step on its own characters. */
  lemma StepOfAppend(x: string, y: string, keep: set<char>)
    requires x != [] && x[|x| - 1] != '\\'
    ensures StepLength(x, keep) <= |x|
    ensures Escaped(x, keep) == StepOutput(x, keep) + Escaped(x[StepLength(x, keep)..], keep)
    ensures Escaped(x + y, keep) == StepOutput(x, keep) + Escaped(x[StepLength(x, keep)..] + y, keep)
  {
    var xy := x + y;
    var n := StepLength(x, keep);
    assert xy[0] == x[0];
    assert |x| > 1 ==> xy[1] == x[1];
    assert xy[n..] == x[n..] + y;
  }

  /** A backslash that does not start a JSON escape comes out doubled (LaTeX's
      `\frac` becomes `\\frac`), wherever it stands after a piece that does not end in a backslash. */
  lemma EscapeDoublesLatexBackslash(x: string, c: char, y: string)
    requires x == [] || x[|x| - 1] != '\\'
    requires c != '\\' && c !in JsonEscapes
    ensures Escaped(x + ['\\', c] + y, JsonEscapes) == Escaped(x, JsonEscapes) + ['\\', '\\', c] + Escaped(y, JsonEscapes)
  {
    assert x + ['\\', c] + y == x + (['\\', c] + y);
    EscapedAppend(x, ['\\', c] + y, JsonEscapes);
    EscapedUnkeptPair(c, y, JsonEscapes);
  }

  /** A backslash before a character the rule does not keep is doubled, and the character copied. */
  lemma EscapedUnkeptPair(c: char, y: string, keep: set<char>)
    requires c != '\\' && c !in keep
    ensures Escaped(['\\', c] + y, keep) == ['\\', '\\', c] + Escaped(y, keep)
  {
    var s := ['\\', c] + y;
    assert s[1..] == [c] + y;
    assert ([c] + y)[1..] == y;
  }

  /** `\n`, `\t` and `\"` come out as they went in. */
  lemma EscapeKeepsJsonEscape(x: string, c: char, y: string)
    requires x == [] || x[|x| - 1] != '\\'
    requires c in JsonEscapes
    ensures Escaped(x + ['\\', c] + y, JsonEscapes) == Escaped(x, JsonEscapes) + ['\\', c] + Escaped(y, JsonEscapes)
  {
    assert x + ['\\', c] + y == x + (['\\', c] + y);
    EscapedAppend(x, ['\\', c] + y, JsonEscapes);
    assert (['\\', c] + y)[2..] == y;
  }

  /** Stripping adds no backslash. */
  lemma StripKeepsNoBackslash(text: string)
    requires '\\' !in text
    ensures '\\' !in Strip(text)
  {
    var l := StripLeft(text);
    assert '\\' !in l by { assert l == text[|text| - |l|..]; }
    var r := StripRight(l);
    assert '\\' !in r by { assert r == l[..|r|]; }
    assert Strip(text) == r;
  }

  /** Text without backslashes and without fences comes back only stripped. */
  lemma CleanPlainText(text: string)
    requires '\\' !in text
    requires !StartsWith(Strip(text), Fence) && !EndsWith(Strip(text), Fence)
    ensures CleanJsonText(text) == Strip(text)
  {
    var t := Strip(text);
    assert StripFence(t) == t;
    StripKeepsNoBackslash(text);
    CleanJsonIsEscaped(text);
    EscapedNoBackslash(t, JsonEscapes);
  }

  /** A reply wrapped as "```lang\n" + body + "```" is cleaned as its body alone. */
  lemma CleanFencedReply(lang: string, body: string)
    requires '\n' !in lang
    ensures CleanJsonText(Fence + lang + "\n" + body + Fence) == Strip(Escaped(body, JsonEscapes))
  {
    var text := Fence + lang + "\n" + body + Fence;
    assert IsStripped(text) by {
      assert text[0] == '`' && text[|text| - 1] == '`';
    }
    assert StartsWith(text, Fence) by { assert text[..3] == Fence; }
    UnwrapFence(lang, body);
    CleanJsonIsEscaped(text);
  }

  /** The first line of a fenced reply ends at the newline after the language tag. */
  lemma FencedFirstLine(lang: string, body: string)
    requires '\n' !in lang
    ensures AfterFirstLine(Fence + lang + "\n" + body + Fence) == body + Fence
  {
    var text := Fence + lang + "\n" + body + Fence;
    var n := |Fence + lang|;
    assert text[..n] == Fence + lang;
    assert text[n] == '\n';
    assert '\n' !in text[..n];
    var f := FindChar(text, '\n');
    assert f.Some?;
    assert text[n + 1..] == body + Fence;
  }

  /** `rsplit` on the trailing fence cuts exactly that fence. */
  lemma CutTrailingFence(body: string)
    ensures BeforeLast(body + Fence, Fence) == body
  {
    var bf := body + Fence;
    assert EndsWith(bf, Fence) by { assert bf[|bf| - 3..] == Fence; }
    assert bf[..|bf| - 3] == body;
  }

  /** A fenced reply loses its first line and its trailing fence. */
  lemma UnwrapFence(lang: string, body: string)
    requires '\n' !in lang
    ensures AfterFirstLine(Fence + lang + "\n" + body + Fence) == body + Fence
    ensures BeforeLast(body + Fence, Fence) == body
  {
    FencedFirstLine(lang, body);
    CutTrailingFence(body);
  }

  /** The LaTeX example: `\frac` is repaired to `\\frac`. */
  lemma FracExample()
    ensures Escaped("\\frac", JsonEscapes) == "\\\\frac"
  {
    EscapedNoBackslash("frac", JsonEscapes);
    assert "\\frac"[1..] == "frac";
  }

  /**
   * The fence removal of `_refine_latex_with_ai` on the reply text: unlike the
   * cleaner, a trailing fence is only removed when the reply also starts with
   * one.
   */
  function UnfenceReply(reply: string): (r: string)
    ensures IsStripped(r)
  {
    var t := Strip(reply);
    var u :=
      if StartsWith(t, Fence) then
        var body := AfterFirstLine(t);
        if EndsWith(body, Fence) then BeforeLast(body, Fence) else body
      else t;
    Strip(u)
  }

  /** A reply wrapped in a fence is reduced to its stripped body. */
  lemma UnfenceWrapped(lang: string, body: string)
    requires '\n' !in lang
    ensures UnfenceReply(Fence + lang + "\n" + body + Fence) == Strip(body)
  {
    var text := Fence + lang + "\n" + body + Fence;
    assert IsStripped(text) by {
      assert text[0] == '`' && text[|text| - 1] == '`';
    }
    assert StartsWith(text, Fence) by { assert text[..3] == Fence; }
    UnwrapFence(lang, body);
  }

  /** A reply that does not start with a fence is only stripped, even when it ends with one. */
  lemma UnfenceUnfenced(reply: string)
    requires !StartsWith(Strip(reply), Fence)
    ensures UnfenceReply(reply) == Strip(reply)
  {
  }

  /** Where the two fence removals differ: text that ends with a fence but
      does not start with one loses the fence in the cleaner ... */
  lemma CleanTrailingFence(body: string)
    requires '\\' !in body && body != [] && !IsSpace(body[0])
    requires !StartsWith(body + Fence, Fence)
    ensures CleanJsonText(body + Fence) == Strip(body)
  {
    var t := body + Fence;
    assert IsStripped(t) by {
      assert t[0] == body[0] && t[|t| - 1] == '`';
    }
    assert EndsWith(t, Fence) by { assert t[|t| - 3..] == Fence; }
    assert t[..|t| - 3] == body;
    assert StripFence(t) == body;
    CleanJsonIsEscaped(t);
    EscapedNoBackslash(body, JsonEscapes);
  }

  /** ... whereas the refiner keeps a trailing fence when the reply does not start with one. */
  lemma UnfenceKeepsTrailingFence(body: string)
    requires body != [] && !IsSpace(body[0])
    requires !StartsWith(body + Fence, Fence)
    ensures UnfenceReply(body + Fence) == body + Fence
  {
    var t := body + Fence;
    assert IsStripped(t) by {
      assert t[0] == body[0] && t[|t| - 1] == '`';
    }
  }

  /** A short text without backslashes passes the replacements unchanged and is already stripped. */
  lemma CleanPlainEscapes(t: string)
    requires '\\' !in t && IsStripped(t)
    ensures Strip(Escaped(t, JsonEscapes)) == t
  {
    EscapedNoBackslash(t, JsonEscapes);
  }

  /**
   * `re.search(r'\{.*\}', raw_text, re.DOTALL)`: the span from the first `{`
   * to the last `}`, when that `}` comes after the `{`.
   */
  function BraceSpan(raw: string): (r: Option<string>)
    ensures r.Some? ==> |r.value| >= 2 && r.value[0] == '{' && r.value[|r.value| - 1] == '}'
  {
    match FindChar(raw, '{')
    case None => None
    case Some(i) =>
      match RFindChar(raw, '}')
      case None => None
      case Some(j) => if i < j then Some(raw[i..j + 1]) else None
  }

  /** The span exists exactly when some `{` is followed later by a `}`. */
  lemma BraceSpanExists(raw: string)
    ensures BraceSpan(raw).Some? <==> exists i, j :: 0 <= i < j < |raw| && raw[i] == '{' && raw[j] == '}'
  {
    if exists i, j :: 0 <= i < j < |raw| && raw[i] == '{' && raw[j] == '}' {
      var i, j :| 0 <= i < j < |raw| && raw[i] == '{' && raw[j] == '}';
      assert raw[i] in raw && raw[j] in raw;
      var f := FindChar(raw, '{');
      var l := RFindChar(raw, '}');
      assert raw[..i + 1][i] == '{';
      assert raw[j..][0] == '}';
    }
  }

  /** The span runs from the first `{` to the last `}` (returned as `i` and `j`). */
  lemma BraceSpanBounds(raw: string) returns (i: nat, j: nat)
    requires BraceSpan(raw).Some?
    ensures i < j < |raw| && BraceSpan(raw).value == raw[i..j + 1]
    ensures '{' !in raw[..i] && '}' !in raw[j + 1..]
  {
    i := FindChar(raw, '{').value;
    j := RFindChar(raw, '}').value;
  }
}
