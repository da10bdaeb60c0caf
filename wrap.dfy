/**
 * `draw_text_wrapped`: the text is split at line breaks into paragraphs,
 * and each paragraph is laid out greedily one character at a time, a line
 * being extended while the font's width of the extended line stays below
 * the box width. Every drawn line moves `y` down by the line height plus
 * the spacing, and the final `y` is returned. The font's measurement is a
 * parameter (`width`), and drawing is modelled by the list of lines drawn.
 */
module Wrap {
  import opened Seqs

  /** `s.split('\n')`: always at least one paragraph; "" gives [""]. */
  function Split(s: string): (ps: seq<string>)
    ensures |ps| >= 1
    decreases |s|
  {
    if s == [] then [[]]
    else
      var rest := Split(s[1..]);
      if s[0] == '\n' then [[]] + rest else [[s[0]] + rest[0]] + rest[1..]
  }

  /** `'\n'.join(ps)`, the inverse of Split. */
  function Join(ps: seq<string>): string
    requires |ps| >= 1
    decreases |ps|
  {
    if |ps| == 1 then ps[0] else ps[0] + "\n" + Join(ps[1..])
  }

  predicate NoBreak(s: string) {
    forall i | 0 <= i < |s| :: s[i] != '\n'
  }

  /** Splitting loses nothing: joining the paragraphs gives the text back, and no paragraph holds a break. */
  lemma {:induction false} SplitJoin(s: string)
    ensures Join(Split(s)) == s
    ensures forall i | 0 <= i < |Split(s)| :: NoBreak(Split(s)[i])
    decreases |s|
  {
    if s != [] {
      SplitJoin(s[1..]);
      var rest := Split(s[1..]);
      if s[0] == '\n' {
        assert Split(s)[1..] == rest;
        assert s == "" + "\n" + s[1..];
      } else {
        var ps := Split(s);
        assert ps[1..] == rest[1..];
        if |rest| == 1 {
          assert s == [s[0]] + rest[0];
        } else {
          assert Join(rest) == rest[0] + "\n" + Join(rest[1..]);
          assert Join(ps) == ([s[0]] + rest[0]) + "\n" + Join(rest[1..]);
          assert s == [s[0]] + s[1..];
        }
        forall i | 0 <= i < |ps| ensures NoBreak(ps[i]) {
          if i > 0 {
            assert ps[i] == rest[i];
          }
        }
      }
    }
  }

  /** The lines drawn from a paragraph, starting with `cur` as `current_line` and `rest` still to read. */
  function WrapFrom(width: string -> int, maxWidth: int, cur: string, rest: string): seq<string>
    decreases |rest|
  {
    if rest == [] then (if cur == [] then [] else [cur])
    else
      var test := cur + [rest[0]];
      if width(test) < maxWidth then WrapFrom(width, maxWidth, test, rest[1..])
      else [cur] + WrapFrom(width, maxWidth, [rest[0]], rest[1..])
  }

  function WrapParagraph(width: string -> int, maxWidth: int, p: string): seq<string> {
    WrapFrom(width, maxWidth, [], p)
  }

  /** All lines drawn for a list of paragraphs, in order. */
  function WrapAll(width: string -> int, maxWidth: int, ps: seq<string>): seq<string>
    decreases |ps|
  {
    if ps == [] then [] else WrapParagraph(width, maxWidth, ps[0]) + WrapAll(width, maxWidth, ps[1..])
  }

  /** The lines `draw_text_wrapped` draws for `text`. */
  function WrapText(width: string -> int, maxWidth: int, text: string): seq<string> {
    WrapAll(width, maxWidth, Split(text))
  }

  function Concat(lines: seq<string>): string
    decreases |lines|
  {
    if lines == [] then [] else lines[0] + Concat(lines[1..])
  }

  lemma {:induction false} ConcatWrapFrom(width: string -> int, maxWidth: int, cur: string, rest: string)
    ensures Concat(WrapFrom(width, maxWidth, cur, rest)) == cur + rest
    decreases |rest|
  {
    if rest == [] {
      if cur != [] {
        assert Concat([cur]) == cur + Concat([]);
      }
    } else {
      var test := cur + [rest[0]];
      if width(test) < maxWidth {
        ConcatWrapFrom(width, maxWidth, test, rest[1..]);
        assert test + rest[1..] == cur + rest;
      } else {
        ConcatWrapFrom(width, maxWidth, [rest[0]], rest[1..]);
        var tail := WrapFrom(width, maxWidth, [rest[0]], rest[1..]);
        assert ([cur] + tail)[1..] == tail;
        assert cur + ([rest[0]] + rest[1..]) == cur + rest;
      }
    }
  }

  /** The lines drawn for a paragraph, read one after the other, are the paragraph. */
  lemma ConcatWrapParagraph(width: string -> int, maxWidth: int, p: string)
    ensures Concat(WrapParagraph(width, maxWidth, p)) == p
  {
    ConcatWrapFrom(width, maxWidth, [], p);
  }

  lemma {:induction false} WrapFromNonEmpty(width: string -> int, maxWidth: int, cur: string, rest: string)
    ensures WrapFrom(width, maxWidth, cur, rest) == [] <==> cur == [] && rest == []
    decreases |rest|
  {
    if rest != [] {
      var test := cur + [rest[0]];
      if width(test) < maxWidth {
        WrapFromNonEmpty(width, maxWidth, test, rest[1..]);
      }
    }
  }

  /** An empty paragraph draws no line, and any other paragraph draws at least one. */
  lemma EmptyParagraphDrawsNothing(width: string -> int, maxWidth: int, p: string)
    ensures WrapParagraph(width, maxWidth, p) == [] <==> p == []
  {
    WrapFromNonEmpty(width, maxWidth, [], p);
  }

  /** A line is acceptable if the font measured it under the box width, or it holds at most one character. */
  predicate Fits(width: string -> int, maxWidth: int, line: string) {
    |line| <= 1 || width(line) < maxWidth
  }

  /**
   * Every drawn line of two or more characters measures under the box
   * width, and the wrapping is greedy: the first character of each line
   * would have made the line before it too wide. A single character wider
   * than the box gets a line of its own, after an empty line when it
   * begins the paragraph.
   */
  lemma {:induction false} WrapFromGreedy(width: string -> int, maxWidth: int, cur: string, rest: string)
    requires Fits(width, maxWidth, cur)
    ensures var lines := WrapFrom(width, maxWidth, cur, rest);
      && (forall i | 0 <= i < |lines| :: Fits(width, maxWidth, lines[i]))
      && (forall j | 1 <= j < |lines| :: lines[j] != [] && width(lines[j - 1] + [lines[j][0]]) >= maxWidth)
      && (cur != [] ==> lines != [] && cur <= lines[0])
    decreases |rest|
  {
    if rest != [] {
      var test := cur + [rest[0]];
      if width(test) < maxWidth {
        WrapFromGreedy(width, maxWidth, test, rest[1..]);
        var lines := WrapFrom(width, maxWidth, test, rest[1..]);
        if cur != [] {
          assert cur <= test;
        }
      } else {
        WrapFromGreedy(width, maxWidth, [rest[0]], rest[1..]);
        var tail := WrapFrom(width, maxWidth, [rest[0]], rest[1..]);
        var lines := [cur] + tail;
        assert tail != [] && [rest[0]] <= tail[0];
        forall j | 1 <= j < |lines|
          ensures lines[j] != [] && width(lines[j - 1] + [lines[j][0]]) >= maxWidth
        {
          if j == 1 {
            assert lines[1] == tail[0] && tail[0][0] == rest[0];
          } else {
            assert lines[j - 1] == tail[j - 2] && lines[j] == tail[j - 1];
          }
        }
        forall i | 0 <= i < |lines| ensures Fits(width, maxWidth, lines[i]) {
          if i > 0 {
            assert lines[i] == tail[i - 1];
          }
        }
      }
    }
  }

  lemma WrapParagraphGreedy(width: string -> int, maxWidth: int, p: string)
    ensures var lines := WrapParagraph(width, maxWidth, p);
      && (forall i | 0 <= i < |lines| :: Fits(width, maxWidth, lines[i]))
      && (forall j | 1 <= j < |lines| :: lines[j] != [] && width(lines[j - 1] + [lines[j][0]]) >= maxWidth)
  {
    assert Fits(width, maxWidth, []);
    WrapFromGreedy(width, maxWidth, [], p);
    var lines := WrapParagraph(width, maxWidth, p);
    assert lines == WrapFrom(width, maxWidth, [], p);
  }

  lemma WrapFromStep(width: string -> int, maxWidth: int, cur: string, rest: string)
    requires rest != []
    ensures var test := cur + [rest[0]];
      WrapFrom(width, maxWidth, cur, rest)
        == if width(test) < maxWidth then WrapFrom(width, maxWidth, test, rest[1..])
           else [cur] + WrapFrom(width, maxWidth, [rest[0]], rest[1..])
  {
  }

  /** `n` moves down by `step`, one at a time. */
  function Times(n: nat, step: int): int {
    if n == 0 then 0 else Times(n - 1, step) + step
  }

  lemma {:induction false} TimesIsProduct(n: nat, step: int)
    ensures Times(n, step) == n * step
  {
    if n > 0 {
      TimesIsProduct(n - 1, step);
    }
  }

  lemma {:induction false} TimesAdd(n: nat, m: nat, step: int)
    ensures Times(n + m, step) == Times(n, step) + Times(m, step)
    decreases m
  {
    if m > 0 {
      TimesAdd(n, m - 1, step);
    }
  }

  /** The inner loop of `draw_text_wrapped` over one paragraph's characters, drawing from `y0` on. */
  method DrawParagraph(paragraph: string, width: string -> int, maxWidth: int, y0: int, lineStep: int)
    returns (lines: seq<string>, y: int)
    ensures lines == WrapParagraph(width, maxWidth, paragraph)
    ensures y == y0 + |lines| * lineStep
  {
    y := y0;
    lines := [];
    var currentLine := "";
    var k := 0;
    assert paragraph[0..] == paragraph;
    while k < |paragraph|
      invariant 0 <= k <= |paragraph|
      invariant lines + WrapFrom(width, maxWidth, currentLine, paragraph[k..]) == WrapParagraph(width, maxWidth, paragraph)
      invariant y == y0 + Times(|lines|, lineStep)
    {
      var ch := paragraph[k];
      assert paragraph[k..][0] == ch && paragraph[k..][1..] == paragraph[k + 1..];
      WrapFromStep(width, maxWidth, currentLine, paragraph[k..]);
      var testLine := currentLine + [ch];
      if width(testLine) < maxWidth {
        currentLine := testLine;
      } else {
        AppendAssoc(lines, [currentLine], WrapFrom(width, maxWidth, [ch], paragraph[k + 1..]));
        lines := lines + [currentLine];
        y := y + lineStep;
        currentLine := [ch];
      }
      k := k + 1;
    }
    assert paragraph[k..] == [];
    if currentLine != [] {
      lines := lines + [currentLine];
      y := y + lineStep;
    }
    TimesIsProduct(|lines|, lineStep);
  }

  /**
   * `draw_text_wrapped`: the lines drawn, in order, and the returned `y`,
   * which is `top` moved down once per drawn line.
   */
  method DrawTextWrapped(text: string, width: string -> int, maxWidth: int, top: int, lineHeight: int, lineSpacing: int)
    returns (drawn: seq<string>, y: int)
    ensures drawn == WrapText(width, maxWidth, text)
    ensures y == top + |drawn| * (lineHeight + lineSpacing)
  {
    y := top;
    drawn := [];
    var paragraphs := Split(text);
    var j := 0;
    while j < |paragraphs|
      invariant 0 <= j <= |paragraphs|
      invariant drawn + WrapAll(width, maxWidth, paragraphs[j..]) == WrapAll(width, maxWidth, paragraphs)
      invariant y == top + Times(|drawn|, lineHeight + lineSpacing)
    {
      assert paragraphs[j..][1..] == paragraphs[j + 1..];
      var lines, y' := DrawParagraph(paragraphs[j], width, maxWidth, y, lineHeight + lineSpacing);
      TimesIsProduct(|lines|, lineHeight + lineSpacing);
      TimesAdd(|drawn|, |lines|, lineHeight + lineSpacing);
      assert |drawn + lines| == |drawn| + |lines|;
      assert WrapAll(width, maxWidth, paragraphs[j..]) == lines + WrapAll(width, maxWidth, paragraphs[j + 1..]);
      AppendAssoc(drawn, lines, WrapAll(width, maxWidth, paragraphs[j + 1..]));
      drawn := drawn + lines;
      y := y';
      j := j + 1;
    }
    assert paragraphs[j..] == [];
    TimesIsProduct(|drawn|, lineHeight + lineSpacing);
  }
}
