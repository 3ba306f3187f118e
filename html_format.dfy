/** The HTML indenter `formatHtml` of examples/examples.js: collapse whitespace between tags,
    split the text into tag and text tokens, and print one line per non-blank token at a running
    indent that closing tags decrease and block-opening tags increase. */
module HtmlFormat {
  import opened Wrappers
  import opened Strings

  /** `indentSize`. */
  const IndentSize: nat := 2

  /** The tags treated as self-closing when they open without `/>`. */
  const VoidTags: seq<string> := ["img", "br", "hr", "input", "meta", "link"]

  // ---------------------------------------------------------------------------------------------
  // html.replace(/>\s+</g, "><")

  /** The length of the whitespace run that starts `s`. */
  function SpaceRun(s: string): (n: nat)
    ensures n <= |s| && (n < |s| ==> !IsSpace(s[n]))
    ensures forall i :: 0 <= i < n ==> IsSpace(s[i])
  {
    if s != [] && IsSpace(s[0]) then 1 + SpaceRun(s[1..]) else 0
  }

  /** A match of `>\s+<` at position 0 of `s`: `>`, whitespace, then `<`. */
  predicate GapAtStart(s: string)
  {
    |s| >= 2 && s[0] == '>' && 1 <= SpaceRun(s[1..]) && 1 + SpaceRun(s[1..]) < |s| &&
    s[1 + SpaceRun(s[1..])] == '<'
  }

  /** The global replacement of `>\s+<` by `><`, matches taken left to right without overlap. */
  function Collapse(s: string): (r: string)
    ensures |r| <= |s|
    decreases |s|
  {
    if s == [] then []
    else if GapAtStart(s) then "><" + Collapse(s[SpaceRun(s[1..]) + 2..])
    else [s[0]] + Collapse(s[1..])
  }

  /** The characters of `s` that are not whitespace, in order. */
  function NonSpace(s: string): (r: string)
    ensures |r| <= |s|
  {
    if s == [] then []
    else (if IsSpace(s[0]) then [] else [s[0]]) + NonSpace(s[1..])
  }

  /** A blank prefix contributes nothing to `NonSpace`. */
  lemma {:induction false} NonSpaceSkipsBlank(s: string, n: nat)
    requires n <= |s| && forall i :: 0 <= i < n ==> IsSpace(s[i])
    ensures NonSpace(s) == NonSpace(s[n..])
  {
    if n > 0 {
      assert s[1..][n - 1..] == s[n..];
      NonSpaceSkipsBlank(s[1..], n - 1);
    }
  }

  /** The replacement removes whitespace and nothing else: every other character is kept, in order. */
  lemma {:induction false} CollapseRemovesOnlySpace(s: string)
    ensures NonSpace(Collapse(s)) == NonSpace(s)
    decreases |s|
  {
    if s == [] {
    } else if GapAtStart(s) {
      var n := SpaceRun(s[1..]);
      var rest := s[n + 2..];
      CollapseRemovesOnlySpace(rest);
      var t := s[1..];
      NonSpaceSkipsBlank(t, n);
      assert t[n..] == s[n + 1..];
      assert NonSpace(s[n + 1..]) == ['<'] + NonSpace(rest) by {
        assert s[n + 1..][1..] == rest;
      }
      assert ("><" + Collapse(rest))[1..] == ['<'] + Collapse(rest);
      assert (['<'] + Collapse(rest))[1..] == Collapse(rest);
    } else {
      CollapseRemovesOnlySpace(s[1..]);
      assert ([s[0]] + Collapse(s[1..]))[1..] == Collapse(s[1..]);
    }
  }

  /** A match of `>\s+<` at position `i` of `s`. */
  predicate GapAt(s: string, i: int)
  {
    0 <= i < |s| && GapAtStart(s[i..])
  }

  /** A leading space is never part of a match, so it is copied. */
  lemma CollapseCopiesSpace(s: string)
    requires s != [] && IsSpace(s[0])
    ensures Collapse(s) == [s[0]] + Collapse(s[1..])
    ensures Collapse(s)[1..] == Collapse(s[1..])
  {
    assert s[0] != '>';
    assert !GapAtStart(s);
    DropFirst(s[0], Collapse(s[1..]));
  }

  /** The replacement keeps a leading whitespace run and the character after it. */
  lemma {:induction false} CollapseKeepsLeadingRun(s: string)
    ensures var n := SpaceRun(s);
      var r := Collapse(s);
      SpaceRun(r) == n && (n < |s| <==> n < |r|) && (n < |s| ==> r[n] == s[n])
    decreases |s|
  {
    if s == [] {
    } else if IsSpace(s[0]) {
      var t := s[1..];
      CollapseKeepsLeadingRun(t);
      CollapseCopiesSpace(s);
      var r := Collapse(s);
      var m := SpaceRun(t);
      assert SpaceRun(s) == 1 + m && SpaceRun(r) == 1 + SpaceRun(r[1..]);
      if m < |t| {
        assert r[1 + m] == Collapse(t)[m];
      }
    } else {
      assert Collapse(s)[0] == s[0];
    }
  }

  lemma DropFirst(c: char, s: string)
    ensures ([c] + s)[1..] == s
  {
  }

  /** A gap in a suffix is a gap in the whole string, shifted. */
  lemma GapAtShift(a: string, b: string, i: int)
    requires 0 <= i < |b|
    ensures GapAt(a + b, |a| + i) <==> GapAt(b, i)
  {
    assert (a + b)[|a| + i..] == b[i..];
  }

  /** No `>\s+<` is left after the replacement. */
  lemma {:induction false} CollapseLeavesNoGap(s: string)
    ensures forall i :: !GapAt(Collapse(s), i)
    decreases |s|
  {
    if s == [] {
    } else if GapAtStart(s) {
      var rest := s[SpaceRun(s[1..]) + 2..];
      CollapseLeavesNoGap(rest);
      var r := Collapse(s);
      assert r == "><" + Collapse(rest);
      assert r[0..] == r && r[1..][0] == '<';
      NoGapInConcat("><", Collapse(rest));
    } else {
      CollapseLeavesNoGap(s[1..]);
      NoGapAtFront(s);
      var r := Collapse(s);
      assert r == [s[0]] + Collapse(s[1..]);
      assert r[0..] == r;
      NoGapInConcat([s[0]], Collapse(s[1..]));
    }
  }

  /** A string has no match if its tail has none and no match starts in its head. */
  lemma NoGapInConcat(p: string, t: string)
    requires forall i :: !GapAt(t, i)
    requires forall i :: 0 <= i < |p| ==> !GapAt(p + t, i)
    ensures forall i :: !GapAt(p + t, i)
  {
    forall i | |p| <= i < |p + t|
      ensures !GapAt(p + t, i)
    {
      GapAtShift(p, t, i - |p|);
    }
  }

  /** The first character copied from `s` starts no match. */
  lemma NoGapAtFront(s: string)
    requires s != [] && !GapAtStart(s)
    ensures !GapAtStart(Collapse(s))
  {
    var tail := Collapse(s[1..]);
    var r := Collapse(s);
    DropFirst(s[0], tail);
    if s[0] == '>' {
      CollapseKeepsLeadingRun(s[1..]);
      assert r[1..] == tail;
    }
  }

  // ---------------------------------------------------------------------------------------------
  // html.split(/(<[^>]*>)/)

  /** A match of `<[^>]*>`: `<`, then anything but `>`, then `>`. */
  predicate IsTag(t: string)
  {
    |t| >= 2 && t[0] == '<' && t[|t| - 1] == '>' && '>' !in t[..|t| - 1]
  }

  /** `t` holds a `<` with a `>` somewhere after it, so `<[^>]*>` matches in `t`. */
  predicate HasTag(t: string)
  {
    exists i, j :: 0 <= i < j < |t| && t[i] == '<' && t[j] == '>'
  }

  /** The tokens concatenated back together. */
  function Concat(ts: seq<string>): string
  {
    if ts == [] then [] else ts[0] + Concat(ts[1..])
  }

  /** Text, tag, text, …, text: a tag-free text, then, while tokens remain, a tag and the rest. */
  predicate Alternates(ts: seq<string>)
  {
    |ts| >= 1 && !HasTag(ts[0]) && (|ts| == 1 || (|ts| >= 3 && IsTag(ts[1]) && Alternates(ts[2..])))
  }

  /** Alternating tokens are an odd number of tokens with the tags at the odd positions and no tag
      in the texts at the even ones. */
  lemma {:induction false} AlternatesMeans(ts: seq<string>)
    requires Alternates(ts)
    ensures |ts| % 2 == 1
    ensures forall k :: 0 <= k < |ts| && k % 2 == 1 ==> IsTag(ts[k])
    ensures forall k :: 0 <= k < |ts| && k % 2 == 0 ==> !HasTag(ts[k])
  {
    if |ts| > 1 {
      var rest := ts[2..];
      AlternatesMeans(rest);
      forall k | 2 <= k < |ts|
        ensures ts[k] == rest[k - 2] && (k % 2 == (k - 2) % 2)
      {
      }
    }
  }

  /** A tag-free text and a tag in front of an alternating list alternate, and concatenate to the
      three pieces joined. */
  lemma AlternatesPrepend(text: string, tag: string, ts: seq<string>)
    requires !HasTag(text) && IsTag(tag) && Alternates(ts)
    ensures Alternates([text, tag] + ts)
    ensures Concat([text, tag] + ts) == text + (tag + Concat(ts))
  {
    var us := [text, tag] + ts;
    assert us[1..] == [tag] + ts && us[1..][1..] == ts && us[2..] == ts;
  }

  /** Without a `<` there is no tag. */
  lemma NoTagWithoutOpen(s: string)
    requires '<' !in s
    ensures !HasTag(s)
  {
  }

  /** When no `>` follows the first `<`, there is no tag. */
  lemma NoTagWithoutClose(s: string, i: int)
    requires 0 <= i < |s| && '<' !in s[..i] && '>' !in s[i + 1..]
    ensures !HasTag(s)
  {
    forall p, q | 0 <= p < q < |s| && s[p] == '<'
      ensures s[q] != '>'
    {
      assert s[q] == s[i + 1..][q - i - 1];
    }
  }

  /** The first `<` and the first `>` after it delimit a tag. */
  lemma FirstTag(s: string, i: int, j: int)
    requires 0 <= i && 0 <= j && i + j + 2 <= |s| && s[i] == '<' && s[i + 1..][j] == '>' && '>' !in s[i + 1..][..j]
    ensures IsTag(s[i..i + j + 2])
  {
    var tag := s[i..i + j + 2];
    assert tag[..|tag| - 1] == [s[i]] + s[i + 1..][..j];
  }

  lemma CutInThree(s: string, i: int, j: int)
    requires 0 <= i <= j <= |s|
    ensures s == s[..i] + (s[i..j] + s[j..])
  {
  }

  /** `split` with a capturing separator: text, tag, text, …, text. Tags sit at the odd positions,
      the texts between them hold no tag, and the pieces concatenate back to `s`. */
  function Tokenize(s: string): (ts: seq<string>)
    ensures Alternates(ts)
    ensures Concat(ts) == s
    decreases |s|
  {
    var i := IndexOf(s, '<');
    if i < 0 then
      NoTagWithoutOpen(s);
      [s]
    else
      var j := IndexOf(s[i + 1..], '>');
      if j < 0 then
        NoTagWithoutClose(s, i);
        [s]
      else
        var end := i + j + 2;
        var text, tag, rest := s[..i], s[i..end], s[end..];
        NoTagWithoutOpen(text);
        FirstTag(s, i, j);
        var ts := Tokenize(rest);
        AlternatesPrepend(text, tag, ts);
        CutInThree(s, i, end);
        [text, tag] + ts
  }

  // ---------------------------------------------------------------------------------------------
  // The token walk

  /** `\w`. */
  predicate IsWordChar(c: char)
  {
    ('a' <= c <= 'z') || ('A' <= c <= 'Z') || ('0' <= c <= '9') || c == '_'
  }

  /** The run of word characters that starts `s`. */
  function WordRun(s: string): (r: string)
    ensures |r| <= |s| && r == s[..|r|]
    ensures forall k :: 0 <= k < |r| ==> IsWordChar(r[k])
    ensures |r| < |s| ==> !IsWordChar(s[|r|])
  {
    if s != [] && IsWordChar(s[0]) then [s[0]] + WordRun(s[1..]) else []
  }

  /** `toLowerCase` on word characters. */
  function Lower(s: string): (r: string)
    ensures |r| == |s|
    ensures forall k :: 0 <= k < |s| ==> r[k] == if 'A' <= s[k] <= 'Z' then s[k] - 'A' + 'a' else s[k]
  {
    seq(|s|, k requires 0 <= k < |s| => if 'A' <= s[k] <= 'Z' then s[k] - 'A' + 'a' else s[k])
  }

  /** `token.match(/<(\w+)/)?.[1]?.toLowerCase()`: the lower-cased name after the first `<` that is
      followed by a word character, or `undefined`. */
  function FirstTagName(t: string): (r: Option<string>)
    ensures r.Some? <==> exists i :: 0 <= i < |t| - 1 && t[i] == '<' && IsWordChar(t[i + 1])
    ensures r.Some? ==> |r.value| >= 1
    decreases |t|
  {
    if |t| < 2 then None
    else if t[0] == '<' && IsWordChar(t[1]) then Some(Lower(WordRun(t[1..])))
    else
      var r := FirstTagName(t[1..]);
      assert forall i :: 1 <= i < |t| - 1 ==> t[i] == t[1..][i - 1] && t[i + 1] == t[1..][i];
      r
  }

  /** The test on an opening tag: neither `/>` at the end, nor a `</` inside, nor a void tag name. */
  predicate OpensBlock(token: string)
  {
    !EndsWith(token, "/>") && !ContainsPair(token, '<', '/') &&
    !(FirstTagName(token).Some? && FirstTagName(token).value in VoidTags)
  }

  /** The token kinds the walk tells apart. */
  datatype TokenKind = Blank | Closing | Opening | Text

  /** How the walk classifies a token: blank first, then by its leading `</` or `<`. */
  function KindOf(token: string): (k: TokenKind)
    ensures (k.Closing? || k.Opening?) <==> !IsBlank(token) && StartsWith(token, "<")
    ensures k.Blank? <==> IsBlank(token)
  {
    if IsBlank(token) then Blank
    else if StartsWith(token, "</") then Closing
    else if StartsWith(token, "<") then Opening
    else Text
  }

  /** The indent after `token` when it was `indent` before. */
  function NextIndent(token: string, indent: nat): (r: nat)
    ensures indent % 2 == 0 ==> r % 2 == 0
  {
    match KindOf(token)
    case Closing => if indent >= IndentSize then indent - IndentSize else 0
    case Opening => if OpensBlock(token) then indent + IndentSize else indent
    case _ => indent
  }

  /** The indent after the walk over `ts`, starting from 0: never negative (a `nat`), always even. */
  function IndentAfter(ts: seq<string>): (r: nat)
    ensures r % 2 == 0
  {
    if ts == [] then 0 else NextIndent(ts[|ts| - 1], IndentAfter(ts[..|ts| - 1]))
  }

  /** One printed line: `indent` spaces, then the content. */
  datatype Line = Line(indent: nat, content: string)

  /** What a token shows on its line: a tag as it is, text trimmed. */
  function Shown(token: string): string
  {
    if StartsWith(token, "<") then token else Trim(token)
  }

  /** The line `token` prints when the indent before it is `indent`: none for a blank token; a
      closing tag at the decreased indent; anything else at the current one. */
  function LineFor(token: string, indent: nat): (r: Option<Line>)
    ensures r.None? <==> KindOf(token) == Blank
    ensures r.Some? ==> r.value.content == Shown(token) && IsBlank(r.value.content) == false
    ensures r.Some? ==> r.value.indent == if KindOf(token) == Closing then NextIndent(token, indent) else indent
  {
    match KindOf(token)
    case Blank => None
    case Closing => Some(Line(NextIndent(token, indent), token))
    case _ => Some(Line(indent, Shown(token)))
  }

  /** The tokens that print a line, in order. */
  function NonBlank(ts: seq<string>): (r: seq<string>)
    ensures |r| <= |ts|
  {
    if ts == [] then []
    else NonBlank(ts[..|ts| - 1]) + if KindOf(ts[|ts| - 1]) == Blank then [] else [ts[|ts| - 1]]
  }

  /** The lines of the walk over `ts`: one per non-blank token, in token order, each showing its
      token at an even indent. */
  function Layout(ts: seq<string>): (ls: seq<Line>)
    ensures |ls| == |NonBlank(ts)|
    ensures forall k :: 0 <= k < |ls| ==> ls[k].content == Shown(NonBlank(ts)[k])
    ensures forall k :: 0 <= k < |ls| ==> ls[k].indent % 2 == 0
  {
    if ts == [] then []
    else
      var init := ts[..|ts| - 1];
      var last := ts[|ts| - 1];
      match LineFor(last, IndentAfter(init))
      case None => Layout(init)
      case Some(l) => Layout(init) + [l]
  }

  /** The text of `lines`: each line's spaces, content and a newline. */
  function Render(lines: seq<Line>): string
  {
    if lines == [] then []
    else
      var l := lines[|lines| - 1];
      Render(lines[..|lines| - 1]) + (Spaces(l.indent) + l.content + "\n")
  }

  /** One more token: its line, if any, is appended, and the indent moves on. */
  lemma WalkStep(ts: seq<string>, k: nat)
    requires k < |ts|
    ensures var indent := IndentAfter(ts[..k]);
      IndentAfter(ts[..k + 1]) == NextIndent(ts[k], indent) &&
      Render(Layout(ts[..k + 1])) == Render(Layout(ts[..k])) + Printed(LineFor(ts[k], indent))
  {
    var init := ts[..k + 1][..k];
    assert init == ts[..k];
    match LineFor(ts[k], IndentAfter(ts[..k]))
    case None =>
      assert Render(Layout(ts[..k])) + "" == Render(Layout(ts[..k]));
    case Some(l) =>
      var ls := Layout(ts[..k]) + [l];
      assert ls[..|ls| - 1] == Layout(ts[..k]);
  }

  /** The text a line adds to `formatted`, or nothing. */
  function Printed(line: Option<Line>): string
  {
    match line
    case None => ""
    case Some(l) => Spaces(l.indent) + l.content + "\n"
  }

  /** The `forEach` callback of `formatHtml` on one token: the new `indent` and `formatted`. */
  method Visit(token: string, indent: nat, formatted: string) returns (indent': nat, formatted': string)
    ensures indent' == NextIndent(token, indent)
    ensures formatted' == formatted + Printed(LineFor(token, indent))
  {
    indent', formatted' := indent, formatted;
    if Trim(token) == "" {
      assert LineFor(token, indent) == None;
      assert formatted + "" == formatted;
      return;
    }
    if StartsWith(token, "</") {
      indent' := if indent' >= IndentSize then indent' - IndentSize else 0;
      assert LineFor(token, indent) == Some(Line(indent', token));
      formatted' := formatted' + (Spaces(indent') + token + "\n");
    } else if StartsWith(token, "<") {
      assert LineFor(token, indent) == Some(Line(indent', token));
      formatted' := formatted' + (Spaces(indent') + token + "\n");
      if !EndsWith(token, "/>") && !ContainsPair(token, '<', '/') {
        var tagName := FirstTagName(token);
        if !(tagName.Some? && tagName.value in VoidTags) {
          indent' := indent' + IndentSize;
        }
      }
    } else {
      assert LineFor(token, indent) == Some(Line(indent', Trim(token)));
      formatted' := formatted' + (Spaces(indent') + Trim(token) + "\n");
    }
  }

  /** The `forEach` of `formatHtml`: the running `indent` and the accumulated `formatted` text,
      one line appended per non-blank token. */
  method Walk(tokens: seq<string>) returns (formatted: string)
    ensures formatted == Render(Layout(tokens))
  {
    formatted := "";
    var indent: nat := 0;
    for k := 0 to |tokens|
      invariant formatted == Render(Layout(tokens[..k]))
      invariant indent == IndentAfter(tokens[..k])
    {
      WalkStep(tokens, k);
      indent, formatted := Visit(tokens[k], indent, formatted);
    }
    assert tokens[..|tokens|] == tokens;
  }

  /** What `formatHtml` returns for `html`: the lines of its tokens, trimmed, so with no
      surrounding whitespace. */
  function Formatted(html: string): (r: string)
    ensures Unpadded(r)
  {
    Trim(Printout(html))
  }

  /** The text the walk accumulates for `html`, before the final trim. */
  function Printout(html: string): string
  {
    Render(Layout(Tokenize(Trim(Collapse(html)))))
  }

  /** `formatHtml`: collapse and trim the input, split it into tokens, walk them, and trim the
      text. */
  method FormatHtml(html: string) returns (r: string)
    ensures r == Formatted(html)
  {
    var tokens := Tokenize(Trim(Collapse(html)));
    var formatted := Walk(tokens);
    r := Trim(formatted);
  }

  // ---------------------------------------------------------------------------------------------
  // The indent as nesting depth

  /** The number of block-opening tags in `ts`. */
  function Opens(ts: seq<string>): nat
  {
    if ts == [] then 0
    else Opens(ts[..|ts| - 1]) + if KindOf(ts[|ts| - 1]) == Opening && OpensBlock(ts[|ts| - 1]) then 1 else 0
  }

  /** The number of closing tags in `ts`. */
  function Closes(ts: seq<string>): nat
  {
    if ts == [] then 0
    else Closes(ts[..|ts| - 1]) + if KindOf(ts[|ts| - 1]) == Closing then 1 else 0
  }

  /** While no closing tag outnumbers the open blocks before it, the indent is twice the nesting
      depth: block-opening tags minus closing tags so far. */
  lemma {:induction false} IndentIsNestingDepth(ts: seq<string>)
    requires forall k :: 0 <= k <= |ts| ==> Closes(ts[..k]) <= Opens(ts[..k])
    ensures IndentAfter(ts) == IndentSize * (Opens(ts) - Closes(ts))
  {
    if ts != [] {
      var init := ts[..|ts| - 1];
      forall k | 0 <= k <= |init|
        ensures Closes(init[..k]) <= Opens(init[..k])
      {
        assert init[..k] == ts[..k];
      }
      IndentIsNestingDepth(init);
      assert ts[..|ts|] == ts;
    }
  }
}
