/** `BreakText` of global.js: the scan that copies a paragraph's text character by character and
    wraps some words, or runs of characters, in `<span class='broken-text'>`. The random draws
    are inputs, and the output is a list of pieces, so that markers and text stay apart. */
module TextBreaker {
  import opened Wrappers
  import opened JsValues

  /** One piece of the new element text: a copied character or one of the two span markers. */
  datatype Piece = Char(c: char) | Open | Close

  /** `/^[a-zA-Z0-9]$/`: where a word may start. */
  predicate IsAlnum(c: char)
  {
    ('a' <= c <= 'z') || ('A' <= c <= 'Z') || ('0' <= c <= '9')
  }

  /** `/^[a-zA-Z0-9.,\-!?()]$/`: what a word is made of. */
  predicate IsWordChar(c: char)
  {
    IsAlnum(c) || c == '.' || c == ',' || c == '-' || c == '!' || c == '?' || c == '(' || c == ')'
  }

  /** `isNaN(chance) || chance < 2` falls back to 5: the chance used is never NaN and at least 2. */
  function EffectiveChance(chance: Number): (r: Number)
    ensures r.Finite? ==> r.x >= 2.0
    ensures r.Finite? || r.PosInfinity?
    ensures (chance.Finite? && chance.x >= 2.0) || chance.PosInfinity? ==> r == chance
    ensures chance.NaN? || chance.NegInfinity? || (chance.Finite? && chance.x < 2.0) ==> r == Finite(5.0)
  {
    match chance
    case NaN => Finite(5.0)
    case NegInfinity => Finite(5.0)
    case PosInfinity => chance
    case Finite(x) => if x < 2.0 then Finite(5.0) else chance
  }

  /** `Math.round(Math.random() * chance)`: a whole number from 0 to the rounded chance. An infinite
      chance makes the product infinite (or NaN), which is never 1; any integer other than 1
      stands for it. */
  predicate RollAllowed(roll: int, chance: Number)
  {
    0 <= roll && (chance.Finite? ==> roll as real <= chance.x + 0.5) && (!chance.Finite? ==> roll != 1)
  }

  /** The ranges of the draws for word number `w`: the roll, the offset `Math.round(Math.random() *
      (wordLength - 1))` for every possible word length, and the span `Math.round(Math.random() *
      10) + 1`. */
  ghost predicate DrawsInRange(chance: Number, rolls: nat -> int, offsets: (nat, nat) -> int, spans: nat -> int)
  {
    (forall w :: RollAllowed(rolls(w), EffectiveChance(chance))) &&
    (forall w: nat, len: nat :: if len == 0 then -1 <= offsets(w, len) <= 0 else 0 <= offsets(w, len) <= len - 1) &&
    (forall w :: 1 <= spans(w) <= 11)
  }

  /** The characters of `out`: the pieces with the markers taken out. */
  function Strip(out: seq<Piece>): (s: string)
    ensures |s| <= |out|
  {
    if out == [] then []
    else Strip(out[..|out| - 1]) + if out[|out| - 1].Char? then [out[|out| - 1].c] else []
  }

  /** Every character of `s` as a piece. */
  function Plain(s: string): (out: seq<Piece>)
    ensures |out| == |s| && forall k :: 0 <= k < |s| ==> out[k] == Char(s[k])
  {
    seq(|s|, k requires 0 <= k < |s| => Char(s[k]))
  }

  /** One step of reading the markers: `Some(open)` says whether a span is open, `None` that a
      marker came out of turn (an `Open` inside a span or a `Close` outside one). */
  function Next(state: Option<bool>, p: Piece): Option<bool>
  {
    match state
    case None => None
    case Some(open) =>
      match p
      case Char(_) => Some(open)
      case Open => if open then None else Some(true)
      case Close => if open then Some(false) else None
  }

  /** The state after reading all of `out` from the start. */
  function SpanState(out: seq<Piece>): Option<bool>
  {
    if out == [] then Some(false) else Next(SpanState(out[..|out| - 1]), out[|out| - 1])
  }

  /** The markers come in `Open`/`Close` pairs, never nested, and every span is closed. */
  predicate WellPaired(out: seq<Piece>)
  {
    SpanState(out) == Some(false)
  }

  /** A span whose `Open` is at `p` and whose `Close` is at `q`. */
  predicate SpanAt(out: seq<Piece>, p: int, q: int)
  {
    0 <= p < q < |out| && out[p] == Open && out[q] == Close && forall m :: p < m < q ==> out[m].Char?
  }

  /** `text[a..b]` is the whole run of word characters from `a`, which is where a word starts
      (an alphanumeric character), or the empty run at the very end of the text. */
  predicate WordSpan(text: string, a: int, b: int)
  {
    0 <= a <= b <= |text| &&
    (forall m :: a <= m < b ==> IsWordChar(text[m])) &&
    (b < |text| ==> !IsWordChar(text[b])) &&
    (a < |text| ==> a < b && IsAlnum(text[a]))
  }

  /** Every span of `out` wraps a whole word of `text`: the characters before its `Open` are
      `text[..a]`, and the span holds exactly the word run `text[a..b]`. */
  ghost predicate WholeWordSpans(out: seq<Piece>, text: string)
  {
    forall p, q :: SpanAt(out, p, q) ==>
      WordSpan(text, |Strip(out[..p])|, |Strip(out[..p])| + q - p - 1)
  }

  /** `text.charAt(k)`: one character, or the empty string past the end. */
  function CharAt(text: string, k: nat): (out: seq<Piece>)
    ensures out == if k < |text| then [Char(text[k])] else []
  {
    if k < |text| then [Char(text[k])] else []
  }

  /** The first `i` characters of `text`, or all of it when `i` is past the end. */
  function Upto(text: string, i: nat): (s: string)
    ensures |s| <= |text|
  {
    if i <= |text| then text[..i] else text
  }

  /** The characters `charAt(i)`, ..., `charAt(j - 1)` taken together. */
  function Clip(text: string, i: nat, j: int): (s: string)
    ensures i <= j <= |text| ==> s == text[i..j]
    ensures j <= i || |text| <= i ==> s == []
  {
    if j <= i || |text| <= i then [] else text[i..if j <= |text| then j else |text|]
  }

  /** The characters seen up to `i` followed by those from `i` to `j` are those seen up to `j`. */
  lemma UptoClip(text: string, i: nat, j: int)
    ensures Upto(text, i) + Clip(text, i, j) == Upto(text, if i < j then j else i)
  {
    if i < j && i < |text| {
      var e := if j <= |text| then j else |text|;
      assert text[..i] + text[i..e] == text[..e];
    }
  }

  lemma StripAppend(out: seq<Piece>, more: seq<Piece>)
    ensures Strip(out + more) == Strip(out) + Strip(more)
    decreases |more|
  {
    if more == [] {
      assert out + more == out;
    } else {
      var init := more[..|more| - 1];
      StripAppend(out, init);
      assert (out + more)[..|out + more| - 1] == out + init;
    }
  }

  lemma {:induction false} StripPlain(s: string)
    ensures Strip(Plain(s)) == s
  {
    if s != [] {
      StripPlain(s[..|s| - 1]);
      assert Plain(s)[..|s| - 1] == Plain(s[..|s| - 1]);
    }
  }

  lemma SpanStateSnoc(out: seq<Piece>, p: Piece)
    ensures SpanState(out + [p]) == Next(SpanState(out), p)
  {
    assert (out + [p])[..|out|] == out;
  }

  lemma {:induction false} SpanStatePlain(out: seq<Piece>, s: string)
    ensures SpanState(out + Plain(s)) == SpanState(out)
  {
    if s == [] {
      assert out + Plain(s) == out;
    } else {
      var init := s[..|s| - 1];
      SpanStatePlain(out, init);
      assert out + Plain(s) == out + Plain(init) + [Char(s[|s| - 1])];
      SpanStateSnoc(out + Plain(init), Char(s[|s| - 1]));
    }
  }

  /** Appending copied characters keeps the text seen so far a prefix of the text and opens or
      closes no span. */
  lemma Copied(out: seq<Piece>, text: string, i: nat, j: int)
    requires Strip(out) == Upto(text, i)
    ensures Strip(out + Plain(Clip(text, i, j))) == Upto(text, if i < j then j else i)
    ensures SpanState(out + Plain(Clip(text, i, j))) == SpanState(out)
  {
    StripAppend(out, Plain(Clip(text, i, j)));
    StripPlain(Clip(text, i, j));
    UptoClip(text, i, j);
    SpanStatePlain(out, Clip(text, i, j));
  }

  /** Adding a marker changes no character seen. */
  lemma StripMarker(out: seq<Piece>, p: Piece)
    requires !p.Char?
    ensures Strip(out + [p]) == Strip(out)
  {
    assert (out + [p])[..|out|] == out;
  }

  /** Adding one piece keeps every span a whole word when the span it may close is one. */
  lemma WholeWordSpansSnoc(out: seq<Piece>, text: string, x: Piece)
    requires WholeWordSpans(out, text)
    requires forall p :: SpanAt(out + [x], p, |out|) ==>
      WordSpan(text, |Strip(out[..p])|, |Strip(out[..p])| + |out| - p - 1)
    ensures WholeWordSpans(out + [x], text)
  {
    var out' := out + [x];
    forall p, q | SpanAt(out', p, q)
      ensures WordSpan(text, |Strip(out'[..p])|, |Strip(out'[..p])| + q - p - 1)
    {
      assert out'[..p] == out[..p];
      if q < |out| {
        forall m | p < m < q
          ensures out[m].Char?
        {
          assert out[m] == out'[m];
        }
        assert SpanAt(out, p, q);
      }
    }
  }

  /** Copied characters add no span, and so keep every span a whole word. */
  lemma {:induction false} WholeWordSpansAppendPlain(out: seq<Piece>, text: string, s: string)
    requires WholeWordSpans(out, text)
    ensures WholeWordSpans(out + Plain(s), text)
  {
    if s == [] {
      assert out + Plain(s) == out;
    } else {
      var init := s[..|s| - 1];
      WholeWordSpansAppendPlain(out, text, init);
      var out0 := out + Plain(init);
      assert out + Plain(s) == out0 + [Char(s[|s| - 1])];
      WholeWordSpansSnoc(out0, text, Char(s[|s| - 1]));
    }
  }

  /** A closed span around a word run that starts where `out` ends in the text keeps every span a
      whole word. */
  lemma WholeWordSpansAppendSpan(out: seq<Piece>, text: string, a: int, b: int)
    requires WholeWordSpans(out, text) && |Strip(out)| == a && WordSpan(text, a, b)
    ensures WholeWordSpans(out + [Open] + Plain(text[a..b]) + [Close], text)
  {
    WholeWordSpansSnoc(out, text, Open);
    WholeWordSpansAppendPlain(out + [Open], text, text[a..b]);
    var out2 := out + [Open] + Plain(text[a..b]);
    forall p | SpanAt(out2 + [Close], p, |out2|)
      ensures WordSpan(text, |Strip(out2[..p])|, |Strip(out2[..p])| + |out2| - p - 1)
    {
      LastSpanStart(out, text[a..b], p);
      assert out2[..p] == out;
    }
    WholeWordSpansSnoc(out2, text, Close);
  }

  /** The span closed by a `Close` right after `Open` and copied characters opens at that `Open`. */
  lemma LastSpanStart(out: seq<Piece>, s: string, p: int)
    requires SpanAt(out + [Open] + Plain(s) + [Close], p, |out| + |s| + 1)
    ensures p == |out|
  {
    var closed := out + [Open] + Plain(s) + [Close];
    assert closed[|out|] == Open;
    assert forall m :: |out| < m < |out| + |s| + 1 ==> closed[m] == Char(s[m - |out| - 1]);
  }

  /** The end of the character run from `i` whose characters satisfy `p`. */
  function RunEnd(text: string, i: nat, p: char -> bool): (j: nat)
    requires i <= |text|
    ensures i <= j <= |text| && (forall m :: i <= m < j ==> p(text[m])) && (j < |text| ==> !p(text[j]))
    decreases |text| - i
  {
    if i < |text| && p(text[i]) then RunEnd(text, i + 1, p) else i
  }

  /** `out` is the new text for the first `i` characters of `text`, with every span closed. */
  predicate Scanned(text: string, i: nat, out: seq<Piece>)
  {
    Strip(out) == Upto(text, i) && WellPaired(out)
  }

  /** `while (i < length && p(charAt(i))) out += charAt(i++)`. */
  method CopyRun(text: string, i: nat, out: seq<Piece>, p: char -> bool) returns (i': nat, out': seq<Piece>)
    requires i <= |text| && Strip(out) == Upto(text, i)
    ensures i' == RunEnd(text, i, p)
    ensures out' == out + Plain(text[i..i'])
    ensures Strip(out') == Upto(text, i') && SpanState(out') == SpanState(out)
  {
    i', out' := i, out;
    while i' < |text| && p(text[i'])
      invariant i <= i' <= RunEnd(text, i, p)
      invariant out' == out + Plain(text[i..i'])
    {
      assert Plain(text[i..i' + 1]) == Plain(text[i..i']) + [Char(text[i'])];
      out' := out' + [Char(text[i'])];
      i' := i' + 1;
    }
    Copied(out, text, i, i');
  }

  /** `while (i < j) out += charAt(i++)`: past the end of the text `charAt` adds nothing, but `i`
      still moves on. */
  method CopyChars(text: string, i: nat, j: int, out: seq<Piece>) returns (i': nat, out': seq<Piece>)
    requires Strip(out) == Upto(text, i)
    ensures i' == if i < j then j else i
    ensures out' == out + Plain(Clip(text, i, j))
    ensures Strip(out') == Upto(text, i') && SpanState(out') == SpanState(out)
  {
    i', out' := i, out;
    while i' < j
      invariant i <= i' && (i < j ==> i' <= j) && (j <= i ==> i' == i)
      invariant out' == out + Plain(Clip(text, i, i'))
    {
      ClipSnoc(text, i, i');
      PlainConcat(Clip(text, i, i'), if i' < |text| then [text[i']] else []);
      out' := out' + CharAt(text, i');
      i' := i' + 1;
    }
    Copied(out, text, i, j);
  }

  /** `out += marker`. */
  method Mark(text: string, i: nat, out: seq<Piece>, marker: Piece) returns (out': seq<Piece>)
    requires !marker.Char? && Strip(out) == Upto(text, i)
    ensures out' == out + [marker]
    ensures Strip(out') == Upto(text, i)
    ensures SpanState(out') == Next(SpanState(out), marker)
  {
    out' := out + [marker];
    StripMarker(out, marker);
    SpanStateSnoc(out, marker);
  }

  /** The whole-word case: the open marker, the word `text[a..j]`, the close marker. */
  method WrapWord(text: string, a: nat, j: nat, out: seq<Piece>) returns (i': nat, out': seq<Piece>)
    requires a <= j <= |text| && Scanned(text, a, out)
    ensures i' == j
    ensures out' == out + [Open] + Plain(text[a..j]) + [Close]
    ensures Scanned(text, i', out')
  {
    out' := Mark(text, a, out, Open);
    i', out' := CopyChars(text, a, j, out');
    out' := Mark(text, i', out', Close);
  }

  /** The broken case: up to `offset` characters copied, the open marker, up to `span` more
      characters (the ones past the end of the text add nothing), the close marker, then the rest
      of the word. */
  method BreakWord(text: string, a: nat, offset: int, span: int, out: seq<Piece>) returns (i': nat, out': seq<Piece>)
    requires a <= |text| && Scanned(text, a, out)
    ensures a <= i' && a + offset + span <= i'
    ensures Scanned(text, i', out')
  {
    var stop := a + offset;
    i', out' := CopyChars(text, a, stop, out);
    out' := Mark(text, i', out', Open);
    stop := stop + span;
    i', out' := CopyChars(text, i', stop, out');
    out' := Mark(text, i', out', Close);
    if i' <= |text| {
      i', out' := CopyRun(text, i', out', IsWordChar);
    }
  }

  /** One pass of the outer loop from `i`: the non-word characters copied, then, on a roll of 1,
      the word wrapped whole or broken, and otherwise the word copied. `offsetFor` is the offset
      drawn for each possible word length. */
  method Pass(text: string, i: nat, out: seq<Piece>, roll: int, wholeWord: bool, offsetFor: nat -> int, span: int)
    returns (i': nat, out': seq<Piece>)
    requires i < |text| && Scanned(text, i, out)
    requires forall len: nat :: if len == 0 then -1 <= offsetFor(len) <= 0 else 0 <= offsetFor(len) <= len - 1
    requires 1 <= span
    ensures i < i' && Scanned(text, i', out')
    ensures roll != 1 && out == Plain(text[..i]) ==> i' <= |text| && out' == Plain(text[..i'])
    ensures wholeWord && WholeWordSpans(out, text) ==> i' <= |text| && WholeWordSpans(out', text)
  {
    ghost var out0 := out;
    i', out' := CopyRun(text, i, out, c => !IsAlnum(c));
    var j := RunEnd(text, i', IsWordChar);
    assert i < i' || i < j by {
      if i' == i {
        assert IsAlnum(text[i]) && IsWordChar(text[i]);
      }
    }
    ghost var a, out1 := i', out';
    if roll != 1 {
      i', out' := CopyRun(text, i', out', IsWordChar);
      if out0 == Plain(text[..i]) {
        PlainPrefix(text, i, a);
        PlainPrefix(text, a, i');
      }
    } else if wholeWord {
      i', out' := WrapWord(text, i', j, out');
    } else {
      var wordLength: nat := j - i';
      i', out' := BreakWord(text, i', offsetFor(wordLength), span, out');
    }
    if wholeWord && WholeWordSpans(out0, text) {
      WholeWordSpansAppendPlain(out0, text, text[i..a]);
      if roll != 1 {
        WholeWordSpansAppendPlain(out1, text, text[a..i']);
      } else {
        assert WordSpan(text, a, j);
        WholeWordSpansAppendSpan(out1, text, a, j);
      }
    }
  }

  /** `BreakText` on the text of an element. `None` is the early return on an empty text;
      otherwise the new element text. Pass `w` of the outer loop uses the roll `rolls(w)`, the
      whole-word flag `whole(w)`, the offsets `offsets(w, wordLength)` and the span length
      `spans(w)`. */
  method BreakText(text: string, chance: Number, rolls: nat -> int, whole: nat -> bool,
                   offsets: (nat, nat) -> int, spans: nat -> int)
    returns (r: Option<seq<Piece>>)
    requires DrawsInRange(chance, rolls, offsets, spans)
    ensures r.None? <==> |text| == 0
    ensures r.Some? ==> Strip(r.value) == text && WellPaired(r.value)
    ensures r.Some? && (forall w :: rolls(w) != 1) ==> r.value == Plain(text)
    ensures r.Some? && (forall w :: whole(w)) ==> WholeWordSpans(r.value, text)
  {
    if |text| == 0 {
      return None;
    }
    var i: nat := 0;
    var out: seq<Piece> := [];
    var w: nat := 0;
    while i < |text|
      invariant Scanned(text, i, out)
      invariant (forall v :: rolls(v) != 1) ==> i <= |text| && out == Plain(text[..i])
      invariant (forall v :: whole(v)) ==> i <= |text| && WholeWordSpans(out, text)
      decreases |text| - i
    {
      i, out := Pass(text, i, out, rolls(w), whole(w), (len: nat) => offsets(w, len), spans(w));
      w := w + 1;
    }
    r := Some(out);
  }

  lemma ClipSnoc(text: string, i: nat, k: nat)
    requires i <= k
    ensures Clip(text, i, k + 1) == Clip(text, i, k) + if k < |text| then [text[k]] else []
  {
  }

  lemma PlainPrefix(text: string, k: nat, m: nat)
    requires k <= m <= |text|
    ensures Plain(text[..k]) + Plain(text[k..m]) == Plain(text[..m])
  {
    assert text[..k] + text[k..m] == text[..m];
    PlainConcat(text[..k], text[k..m]);
  }

  lemma PlainConcat(s: string, t: string)
    ensures Plain(s + t) == Plain(s) + Plain(t)
  {
  }
}
