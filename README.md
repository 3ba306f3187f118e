# Verified model of the scripts of a personal web site

This project models in Dafny the rule-following parts of the scripts of a small personal site.
The site has a games playground, a page of code examples and a shared page script.

- **`Containers`** (playground/shared/containers.js) models the keyed store `Dictionary`.
  - It keeps two parallel arrays, `#keys` and `#values`, and validates keys.
  - It models add/overwrite, lookup, `KeyExists`, remove, clear and size.
  - It also models the get-or-create `Cache.AddOrGet`, which runs the constructor only when the lookup misses.
  - The class keeps the source's quirk: `Add` pushes the key untrimmed, but every lookup searches for `key.trim()`.
- **`GameLib`** (playground/shared/gamelib.js) models the sprite set `SpriteSet`. It is a class whose fields are the sprite pool, the animation frame list, the cursor, the origin and the load cache.
  - `Create`/`#initialize` first validate the path array. They then pass every path to the cache's `AddOrGet`, whose factory creates one image per call and requests its load. The loads then settle in a completion order given as input.
  - On success the frame list covers every sprite.
  - The model also covers the `AnimationFrames` setter (an integer, a two-element range or an explicit list) and the `CurrentFrameIndex` and `Origin` accessors.
  - `NextFrame` and `PreviousFrame` wrap over the sprite count.
- **`HtmlFormat`** (examples/examples.js) models the indenter `formatHtml`:
  - collapse `>\s+<` to `><` and trim;
  - split into alternating text and tag tokens;
  - walk the tokens with a running indent;
  - trim the result.
- **`TextBreaker`** (global.js) models the scan loop of `BreakText`. It copies a paragraph's text and wraps some words, or runs of characters, in a span.
  - The random draws are inputs.
  - The output is a sequence of `Char(c)`, `Open` and `Close` pieces.
- **`Cookies`** (global.js) models `getCookie` on a cookie string and the rule that decides when `setupPageTracking` rewrites the `lastPage` cookie.
- **`CategoryFilter`** (global.js) models the show/hide decision of `filterContentByCategory`.
- **Helper modules:**
  - `Wrappers` holds `Option`/`Result`/`Outcome`.
  - `Strings` holds JavaScript's `trim`, `split`, `indexOf` and the `\s` whitespace set.
  - `JsValues` holds the dynamic argument shapes the setters inspect.
- **Scenario modules:** `ContainerScenarios` and `SpriteScenarios` hold concrete call sequences.

A thrown error is the `Failure`/`Fail` case of a result, and `null`/`undefined` is `None`.

## Model

| member | source | states |
|---|---|---|
| Containers.KeyValid | playground/shared/containers.js:5-9 | a valid key is a string that is not entirely whitespace; null, undefined and non-strings are invalid |
| Containers.KeyValidMeansTrimNonEmpty | playground/shared/containers.js:5-9 | a key is valid exactly when it is a string whose trim has at least one character |
| Containers.Dictionary.constructor | playground/shared/containers.js:1-3 | a new dictionary has no keys and no values |
| Containers.Dictionary.KeyIndex | playground/shared/containers.js:27-29 | -1 for an invalid key or an absent trim; otherwise the first slot holding `key.trim()` |
| Containers.Dictionary.Get | playground/shared/containers.js:31-34 | never fails; null for an invalid key or an absent trim, otherwise the value paired with the slot of `key.trim()` |
| Containers.Dictionary.KeyExists | playground/shared/containers.js:36-38 | as written: true exactly when the trim is stored and is not in slot 0 |
| Containers.Dictionary.KeyPresent | playground/shared/containers.js:36-38 | corrected: true exactly when the trim is stored, and then `Get` returns that slot's value; otherwise `Get` is null |
| Containers.Dictionary.Size | playground/shared/containers.js:53-55 | the number of entries equals the number of stored values |
| Containers.Dictionary.Add | playground/shared/containers.js:11-25 | fails with nothing changed exactly for an invalid key. A stored trim has only its value overwritten; otherwise the raw key and the value are appended. A key that is its own trim then reads back its value. A padded key is appended and still not found. Arrays stay paired |
| Containers.Dictionary.Remove | playground/shared/containers.js:40-46 | removes exactly the pair at the key's slot, keeping the order and pairing of the rest; an invalid or absent key changes nothing; afterwards `Get` is null |
| Containers.Dictionary.Clear | playground/shared/containers.js:48-51 | both arrays empty, size 0 |
| Containers.Dictionary.AddOrGet | playground/shared/containers.js:63-81 | fails for a missing constructor, with nothing stored. A non-null hit returns the stored value and does not call the constructor. A miss calls it once with the key and adds the result; with an invalid key, `Add` then fails and nothing is stored |
| ContainerScenarios.WhitespaceKeyIsStoredTwice | playground/shared/containers.js:22-28 | adding `" a"` twice stores two entries, and `Get(" a")` is null |
| ContainerScenarios.FirstSlotIsMissedByKeyExists | playground/shared/containers.js:36-38 | the first key added is reported missing by `KeyExists`, present by `KeyPresent`, and found by `Get` |
| ContainerScenarios.AddOrGetTwice | playground/shared/containers.js:63-81 | two calls with one valid key both return the constructed value. The constructor runs once when the key is its own trim and the value is non-null, and twice otherwise |
| GameLib.FrameIndex | playground/shared/gamelib.js:68-81 | succeeds exactly for an integer `v` with `1 <= v <= sprites`, giving `v - 1`; a non-integer gives the integer error |
| GameLib.ResolveEach | playground/shared/gamelib.js:95-98 | all values resolved in order, or the error of the first value that does not resolve |
| GameLib.ResolveEachPrefixFailure | playground/shared/gamelib.js:96-98 | a failure in a prefix is the failure of the whole list |
| GameLib.Range | playground/shared/gamelib.js:105-108 | the consecutive indices from `a` to `b` |
| GameLib.ResolveFrames | playground/shared/gamelib.js:83-115 | a frame list that the setter accepts is non-empty and every index is below the sprite count |
| GameLib.SingleFrame | playground/shared/gamelib.js:86-87 | an integer `v` gives the frame list `[v - 1]` |
| GameLib.TwoElementRange | playground/shared/gamelib.js:99-109 | a valid pair in either order gives `abs(a - b) + 1` strictly ascending consecutive indices from `min - 1` |
| GameLib.DescendingPairIsRange | playground/shared/gamelib.js:100-108 | `[3, 1]` over five sprites gives `[0, 1, 2]` |
| GameLib.ExplicitFrameList | playground/shared/gamelib.js:94-111 | any non-empty array, a two-element range included, is accepted exactly when every element is a valid frame number; an array of any other length maps element-wise to `v - 1` in order |
| GameLib.RejectedFrameShapes | playground/shared/gamelib.js:83-115 | null, undefined, an empty array and any non-integer, non-array value are rejected |
| GameLib.NextCursor | playground/shared/gamelib.js:154-156 | the next cursor lies in `[0, sprites)` |
| GameLib.PreviousCursor | playground/shared/gamelib.js:158-162 | the previous cursor lies in `[0, sprites)` |
| GameLib.AdvanceIsModular | playground/shared/gamelib.js:154-156 | `k` calls to `NextFrame` move the cursor to `(cursor + k) mod sprites` |
| GameLib.NextFrameCycle | playground/shared/gamelib.js:154-156 | one `NextFrame` per sprite restores the cursor |
| GameLib.PreviousNextInverse | playground/shared/gamelib.js:154-162 | `PreviousFrame` then `NextFrame`, and the reverse, restore the cursor |
| GameLib.RequestedPaths | playground/shared/gamelib.js:38-59 | the paths whose factory runs: no more than the paths given |
| GameLib.RequestedOncePerDistinctPath | playground/shared/gamelib.js:38-59 | for paths that are their own trim, every path is requested and none twice |
| GameLib.LoadFactory | playground/shared/gamelib.js:39-58 | the factory creates an image whose `src` is the path |
| GameLib.Settled | playground/shared/gamelib.js:43-48 | the pool holds at most one image per settlement |
| GameLib.SettledAllLoaded | playground/shared/gamelib.js:43-48 | when every load succeeds, the pool is the images in completion order |
| GameLib.SettledCoversAll | playground/shared/gamelib.js:43-62 | with no failure in a completion order, every requested image is in the pool |
| GameLib.SpriteSet.constructor | playground/shared/gamelib.js:4-22 | empty pool, frame list and cache; cursor 0; origin `(0, 0)` |
| GameLib.SpriteSet.Create | playground/shared/gamelib.js:14-18 | a new set is returned exactly when `#initialize` succeeds, with every property of `Initialize`; otherwise the error is the one `Initialize` gives |
| GameLib.SpriteSet.Initialize | playground/shared/gamelib.js:24-66 | rejects a non-array, an empty array or a non-string element with its own error. Among string paths, a blank one fails with the cache's invalid-key error, and a failed load fails with the path of the first load to fail in completion order. Succeeds exactly when the paths are valid keys and every requested load succeeds. The cache then holds the de-duplicated paths and the pool one image per factory call. The frame list is `[0..N-1]`, the frame index is 1 and the origin is `(0, 0)` |
| GameLib.SpriteSet.AwaitLoads | playground/shared/gamelib.js:43-64 | once every path is requested, succeeds exactly when every load succeeds, and otherwise fails with the path of the first load to fail in completion order; on success the pool holds every requested image, the frame list covers it and the frame index is 1 |
| GameLib.SpriteSet.RequestLoads | playground/shared/gamelib.js:26-59 | the three validation errors come before any request. Otherwise it succeeds exactly when every path is a valid key, and then the cache keys are the de-duplicated paths with one image each |
| GameLib.SpriteSet.RequestAll | playground/shared/gamelib.js:38-59 | the `forEach` succeeds exactly when every path is a valid key, and then the cache keys are the de-duplicated paths, one requested image per key |
| GameLib.SpriteSet.RequestNext | playground/shared/gamelib.js:39-58 | one path: the tracked cache extends by that path's rule, or the whole list has an invalid key |
| GameLib.SpriteSet.RequestLoad | playground/shared/gamelib.js:39-58 | `AddOrGet` with the load factory succeeds exactly for a valid key. It adds the path when its trim is new and otherwise leaves the keys. An invalid key still records the factory's request |
| GameLib.SpriteSet.Settle | playground/shared/gamelib.js:43-62 | pushes the images of the successful loads in completion order, and reports the first failure to settle, if any |
| GameLib.SpriteSet.CompleteLoads | playground/shared/gamelib.js:43-64 | fails with the first failing load's path. Otherwise every requested image is in the pool, in completion order, the frame list covers every sprite and the cursor is 0 |
| GameLib.SpriteSet.ResolveAll | playground/shared/gamelib.js:94-98 | the loop resolves the list exactly as `ResolveEach` |
| GameLib.SpriteSet.SetAnimationFrames | playground/shared/gamelib.js:83-118 | on success the frame list is what `ResolveFrames` describes and the cursor is 0. On failure the error is the one `ResolveFrames` gives and the frame list and cursor are unchanged. The pool is untouched and every index stays below the sprite count |
| GameLib.SpriteSet.SetCurrentFrameIndex | playground/shared/gamelib.js:120-125 | accepts exactly integers in `[1, sprites]` and stores `value - 1`, bypassing the frame list; otherwise fails with the cursor unchanged |
| GameLib.SpriteSet.CurrentFrameIndex | playground/shared/gamelib.js:127-129 | the 1-based frame index lies in `[1, FrameCount]` |
| GameLib.SpriteSet.SetOrigin | playground/shared/gamelib.js:131-144 | accepts exactly a two-element array of numbers, which the getter then returns; otherwise fails with its error and the origin unchanged |
| GameLib.SpriteSet.Origin | playground/shared/gamelib.js:142-144 | the getter returns the stored pair `(originX, originY)`, `(0, 0)` after `Create` and the accepted pair after `SetOrigin` |
| GameLib.SpriteSet.CurrentFrameImage | playground/shared/gamelib.js:146-148 | the sprite under the cursor when the cursor indexes the pool, and `undefined` otherwise; always a sprite on a loaded set |
| GameLib.SpriteSet.FrameCount | playground/shared/gamelib.js:150-152 | the number of loaded sprites, which `Create` makes the number of paths whose load it requested |
| GameLib.SpriteSet.NextFrame | playground/shared/gamelib.js:154-156 | the cursor moves one place forward modulo the sprite count, not the frame list |
| GameLib.SpriteSet.PreviousFrame | playground/shared/gamelib.js:158-162 | the cursor moves one place back, wrapping to the last sprite |
| SpriteScenarios.RepeatedPathLoadsOnce | playground/shared/gamelib.js:38-59 | the same path twice loads one sprite |
| SpriteScenarios.PaddedPathLoadsAgain | playground/shared/gamelib.js:38-59 | `" a.png"` then `"a.png"` loads two sprites, because the padded key is stored untrimmed |
| Strings.Split | global.js:177 | `split` on one character: at least one piece, no piece contains the separator, and the pieces join back to the string |
| Strings.Trim | playground/shared/containers.js:28 | `trim` never lengthens, leaves no whitespace at either end, and is empty exactly for an all-whitespace string |
| Strings.IndexOf | playground/shared/containers.js:28 | `indexOf` is -1 exactly when the element is absent, and otherwise the first position holding it |
| Strings.TrimIsInfix | playground/shared/containers.js:28 | `trim` removes only surrounding whitespace |
| HtmlFormat.Collapse | examples/examples.js:56 | the `>\s+<` replacement never lengthens the text |
| HtmlFormat.CollapseRemovesOnlySpace | examples/examples.js:56 | the `>\s+<` replacement removes whitespace and keeps every other character in order |
| HtmlFormat.CollapseLeavesNoGap | examples/examples.js:56 | no `>\s+<` is left after the replacement |
| HtmlFormat.Tokenize | examples/examples.js:59 | the tokens alternate tag-free text and tag `<[^>]*>`, starting and ending with text, and concatenate back to the input |
| HtmlFormat.AlternatesMeans | examples/examples.js:59 | alternating tokens are an odd number, with a tag `<[^>]*>` at every odd position and no tag inside the text at any even one |
| HtmlFormat.FirstTagName | examples/examples.js:74 | a name exists exactly when some `<` is followed by a word character, and is non-empty |
| HtmlFormat.KindOf | examples/examples.js:62-67 | a token is blank exactly when it is all whitespace; a non-blank token starting with `<` is a tag, closing when it starts with `</`, and any other is text |
| HtmlFormat.OpensBlock | examples/examples.js:70-76 | an opening tag indents unless it ends with `/>`, contains `</` or names a void element (`img`, `br`, `hr`, `input`, `meta`, `link`), its first tag name compared in lower case |
| HtmlFormat.NextIndent | examples/examples.js:64-79 | an even indent stays even |
| HtmlFormat.IndentAfter | examples/examples.js:52-86 | the indent over any token list is a natural number and even |
| HtmlFormat.LineFor | examples/examples.js:62-85 | a blank token prints nothing. A closing tag prints at the decreased indent and other tokens at the current one. Tags print as they are and text prints trimmed, never blank |
| HtmlFormat.Layout | examples/examples.js:61-86 | one line per non-blank token, in token order, each showing its token at an even indent |
| HtmlFormat.Visit | examples/examples.js:61-85 | one token appends its line, if any, and moves the indent as `NextIndent` does |
| HtmlFormat.Walk | examples/examples.js:61-86 | the `forEach` produces exactly the rendered layout of the tokens |
| HtmlFormat.Formatted | examples/examples.js:88 | the result has no leading or trailing whitespace |
| HtmlFormat.FormatHtml | examples/examples.js:50-89 | the function returns the trimmed rendering of the tokens of the collapsed, trimmed input |
| HtmlFormat.IndentIsNestingDepth | examples/examples.js:64-79 | while closing tags never outnumber open blocks, the indent is twice the open blocks minus the closings |
| TextBreaker.EffectiveChance | global.js:3 | a NaN, negative-infinite or below-2 chance becomes 5; any other chance is kept; the result is never NaN and at least 2 |
| TextBreaker.RunEnd | global.js:40-42 | the end of the maximal run of matching characters from `i` |
| TextBreaker.CopyRun | global.js:24-26 | copies the maximal run of matching characters, keeping the characters seen a prefix of the text and the span state unchanged |
| TextBreaker.CopyChars | global.js:60 | `while (i < j)` copies the characters up to `j` (none past the end) and moves `i` to `j` |
| TextBreaker.WrapWord | global.js:49-52 | the whole word `text[a..j]` between one `Open` and one `Close`, with the text so far preserved and spans paired |
| TextBreaker.BreakWord | global.js:53-70 | after the broken span `i` has passed offset plus span length, with the text so far preserved and spans paired |
| TextBreaker.Pass | global.js:22-70 | one outer pass advances `i` and preserves the text and the pairing. A roll other than 1 adds only plain characters, and in the whole-word case every span is a whole word |
| TextBreaker.WholeWordSpansAppendSpan | global.js:49-52 | a span around the word run where the output stands keeps every span a whole word |
| TextBreaker.BreakText | global.js:16-71 | nothing for an empty text. Otherwise: with markers removed, the output is exactly the input; markers form non-nested `Open`/`Close` pairs; with no roll of 1 the output is the plain text; with all whole-word draws every span holds exactly the maximal word run that starts there |
| Cookies.MatchIndex | global.js:178-183 | the first piece whose trim starts with `name=`, or -1 when none does |
| Cookies.CookieValue | global.js:175-185 | null when no trimmed piece starts with `name=`; otherwise the text after `name=` in the first trimmed piece that does |
| Cookies.GetCookie | global.js:175-185 | the loop with its early return computes exactly `CookieValue` |
| Cookies.ExactNameMatch | global.js:176-180 | a piece `n=v` matches `name=` exactly when `n` is `name`, so a name that contains or extends `name` does not match |
| Cookies.ShouldRecordPage | global.js:194 | the cookie is left as is exactly when it holds the current path and that path is non-empty |
| Cookies.RecordPage | global.js:189-197 | writes the current path unless the `lastPage` cookie already holds that non-empty path |
| CategoryFilter.Decide | global.js:103-158 | the item ends visible exactly when it should be shown. A show or a hide starts exactly when shown-ness and hidden-ness agree; the other two cases leave the item as it is |
| CategoryFilter.SplitWords | global.js:98 | a word is a piece of `split(' ')` exactly when it sits between spaces or the ends of the line |
| CategoryFilter.ShouldShow | global.js:99 | an item is shown when the category is one of its `cat-filter` pieces or is `'all'` |
| CategoryFilter.ShouldShowMeans | global.js:98-99 | an item is shown exactly when the category is `'all'` or is a space-separated word of its `cat-filter`, a missing attribute counting as `''` |
| CategoryFilter.FilterContentByCategory | global.js:94-160 | one action per item, in order, each the decision for that item's shown-ness and hidden-ness |

## Left out

- Image loading, `Promise.all`, `onload`/`onerror` and console output. The asynchronous part is a completion order `schedule(n)` and a success flag `ok(i)` per load, both inputs.
- `Promise.all` rejects with the first failure to settle; loads still pending at that point are not modelled.
- `Draw` and `DrawRotated`: they only call the canvas API.
- The second argument of `SpriteSet.Create`: `#initialize` never reads it.
- `SpriteSet.SetAnimationFrames`, `SpriteSet.SetCurrentFrameIndex`, `SpriteSet.NextFrame` and `SpriteSet.PreviousFrame` require a loaded set, which is the only kind `Create` returns. On a set built with the bare constructor (an empty pool, where `NextFrame` computes `NaN`) they are not modelled.
- Numbers are exact reals with NaN and the infinities. IEEE-754 rounding is not modelled.
- A non-number `chance` (a numeric string that JavaScript coerces) is not modelled.
- `Math.random`/`Math.round` are not modelled; the draws are bounded integer inputs.
- RollAllowed: a finite chance allows rolls from 0 to `chance + 0.5`, a slight over-approximation of the rounded product. An infinite chance allows any integer other than 1, where JavaScript gives `Infinity` or `NaN`.
- The paragraph check at global.js:5 and reading `innerText`: the model takes the text.
- Writing `innerHTML`: the output is `Open`/`Close` pieces, not `<span class='broken-text'>` markup.
- `getComputedStyle(el).display === 'none'` is a boolean per item.
- The class, height and fade changes, the `transitionend` handlers and `initFilterButtons` are DOM effects and are not modelled; each item's outcome is the action that starts.
- `setCookie`, the `beforeunload` registration, `getLastPage` and `createBackButton`: Date formatting and DOM effects. The model returns the value that would be written.
- `prettyPrintToDiv` in examples/examples.js, and the files follow-board.js and follow-navbar.js: DOM and styling only.
- Strings are sequences of Unicode scalar values. UTF-16 surrogate pairs are not modelled.
- `trim` and `\s` use JavaScript's whitespace set; `\w` and `toLowerCase` are the ASCII forms that tag names use.
- Containers.KeyValid, Containers.Dictionary.Add, Containers.Dictionary.Get, Containers.TrimmedKeysUnique, GameLib.RequestedOncePerDistinctPath: a `String` object (`new String(...)`) is the same `Str` value as a primitive string. In the source such a key passes `KeyValid` and is pushed as the object itself, so the later `indexOf(key.trim())`, a strict comparison with a primitive, never finds it. After `Add(new String("a"), 1)` the source's `Get("a")` is null, and two equal `String` object paths request two loads. These contracts hold for primitive-string keys only.
- Dictionary values compare by value (`V(==)`), not by object identity. `Add`'s `!==` guard only skips a write of an equal value, so the state after `Add` is the same either way.

## Findings

| source | as written | input that shows it | evidently intended | confidence | as-written member | corrected member |
|---|---|---|---|---|---|---|
| playground/shared/containers.js:37 | `KeyExists` tests `#getKeyIndex(key) > 0` | `Add("a", 7)` on an empty dictionary: `KeyExists("a")` is false while `Get("a")` is 7 | `>= 0`: true whenever `Get` finds the key | not executed | ContainerScenarios.FirstSlotIsMissedByKeyExists | Containers.Dictionary.KeyPresent |
