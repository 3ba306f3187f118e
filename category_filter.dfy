/** The show/hide decision of `filterContentByCategory` in global.js. The DOM is left out: an
    item is its `cat-filter` attribute and whether it is hidden now, and the outcome is the action
    the loop starts on it. */
module CategoryFilter {
  import opened Wrappers
  import opened Strings

  /** A content item: its `cat-filter` attribute (null when absent) and whether it carries the
      `hidden` class or is displayed as `none`. */
  datatype Item = Item(catFilter: Option<string>, hiddenClass: bool, displayNone: bool)
  {
    predicate IsHidden()
    {
      hiddenClass || displayNone
    }
  }

  /** What the loop does with one item. */
  datatype Action =
    | KeepVisible   // already visible: fade classes and height cleared
    | StartShow     // hidden: expand from height 0, fade in
    | Skip          // hidden and staying hidden
    | StartHide     // visible: collapse to height 0, fade out, then hide

  /** Whether the item is visible once the action has run its course. */
  predicate VisibleAfter(a: Action)
  {
    a.KeepVisible? || a.StartShow?
  }

  /** `w` sits at position `a` of `line`, with a space or an end of `line` on either side. */
  predicate WordAt(w: string, line: string, a: int)
  {
    0 <= a && a + |w| <= |line| && line[a..a + |w|] == w &&
    (a == 0 || line[a - 1] == ' ') && (a + |w| == |line| || line[a + |w|] == ' ')
  }

  /** `w` is one of the words of `line` between spaces. */
  ghost predicate IsWordOf(w: string, line: string)
  {
    ' ' !in w && exists a :: WordAt(w, line, a)
  }

  /** `(attr || '').split(' ')`. */
  function Categories(catFilter: Option<string>): seq<string>
  {
    Split(if catFilter.Some? then catFilter.value else "", ' ')
  }

  /** `itemCategories.includes(category) || category === 'all'`. */
  predicate ShouldShow(catFilter: Option<string>, category: Option<string>)
  {
    (category.Some? && category.value in Categories(catFilter)) || category == Some("all")
  }

  /** The four cases of the loop body. */
  function Decide(shouldShow: bool, isHidden: bool): (a: Action)
    ensures VisibleAfter(a) == shouldShow
    ensures (a.StartShow? || a.StartHide?) <==> shouldShow == isHidden
  {
    if shouldShow then
      if !isHidden then KeepVisible else StartShow
    else
      if isHidden then Skip else StartHide
  }

  /** In a line without spaces the only word is the line itself. */
  lemma WordAtNoSpace(w: string, line: string, a: int)
    requires ' ' !in line && WordAt(w, line, a)
    ensures a == 0 && w == line
  {
  }

  /** A word that starts no later than the first space `i` is the first piece `line[..i]`. */
  lemma WordAtFirst(w: string, line: string, i: nat, a: int)
    requires i < |line| && line[i] == ' ' && ' ' !in line[..i]
    requires ' ' !in w && WordAt(w, line, a) && a <= i
    ensures w == line[..i]
  {
  }

  /** After the first space `i`, the words of `line` are those of `line[i + 1..]`, moved by
      `i + 1`. */
  lemma WordAtShift(w: string, line: string, i: nat, b: int)
    requires i < |line| && line[i] == ' ' && 0 <= b
    ensures WordAt(w, line[i + 1..], b) <==> WordAt(w, line, b + i + 1)
  {
    var rest := line[i + 1..];
    if b + |w| <= |rest| {
      assert line[b + i + 1..b + i + 1 + |w|] == rest[b..b + |w|];
    }
  }

  /** In a line without spaces, the only word is the line. */
  lemma NoSpaceWords(w: string, line: string)
    requires ' ' !in line
    ensures w == line <==> IsWordOf(w, line)
  {
    if w == line {
      assert WordAt(w, line, 0);
    }
    if IsWordOf(w, line) {
      var a :| WordAt(w, line, a);
      WordAtNoSpace(w, line, a);
    }
  }

  /** With a first space at `i`, the words of `line` are `line[..i]` and the words after it. */
  lemma FirstSpaceWords(w: string, line: string, i: nat)
    requires i < |line| && line[i] == ' ' && ' ' !in line[..i]
    ensures w == line[..i] || IsWordOf(w, line[i + 1..]) <==> IsWordOf(w, line)
  {
    var rest := line[i + 1..];
    if w == line[..i] {
      assert WordAt(w, line, 0);
    }
    if IsWordOf(w, rest) {
      var b :| WordAt(w, rest, b);
      WordAtShift(w, line, i, b);
    }
    if IsWordOf(w, line) {
      var a :| WordAt(w, line, a);
      if a <= i {
        WordAtFirst(w, line, i, a);
      } else {
        WordAtShift(w, line, i, a - i - 1);
      }
    }
  }

  /** A word `w` is one of the pieces of `line.split(' ')` exactly when it sits between spaces. */
  lemma {:induction false} SplitWords(w: string, line: string)
    ensures w in Split(line, ' ') <==> IsWordOf(w, line)
    decreases |line|
  {
    var i := IndexOf(line, ' ');
    if i < 0 {
      NoSpaceWords(w, line);
    } else {
      SplitWords(w, line[i + 1..]);
      FirstSpaceWords(w, line, i);
    }
  }

  /** An item is shown when the category is `'all'` or is one of the space-separated words of its
      `cat-filter` attribute, an absent attribute counting as the empty string. */
  lemma ShouldShowMeans(catFilter: Option<string>, category: Option<string>)
    ensures ShouldShow(catFilter, category) <==>
      category == Some("all") ||
      (category.Some? && IsWordOf(category.value, if catFilter.Some? then catFilter.value else ""))
  {
    if category.Some? {
      SplitWords(category.value, if catFilter.Some? then catFilter.value else "");
    }
  }

  /** `filterContentByCategory(category)` over the content items, in document order. */
  method FilterContentByCategory(category: Option<string>, items: seq<Item>) returns (actions: seq<Action>)
    ensures |actions| == |items|
    ensures forall k :: 0 <= k < |items| ==>
      actions[k] == Decide(ShouldShow(items[k].catFilter, category), items[k].IsHidden())
  {
    actions := [];
    for i := 0 to |items|
      invariant |actions| == i
      invariant forall k :: 0 <= k < i ==>
        actions[k] == Decide(ShouldShow(items[k].catFilter, category), items[k].IsHidden())
    {
      var el := items[i];
      var shouldShow := ShouldShow(el.catFilter, category);
      var isHidden := el.IsHidden();
      actions := actions + [Decide(shouldShow, isHidden)];
    }
  }
}
