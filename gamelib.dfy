/** The sprite pool and animation-frame model `SpriteSet` of playground/shared/gamelib.js. */
module GameLib {
  import opened Wrappers
  import opened Strings
  import opened JsValues
  import opened Containers

  /** The errors `SpriteSet` throws, one per distinct `throw` in the source. */
  datatype SpriteError =
    | NotAnArray                  // "spriteFilepathArray is not an array."
    | EmptyArray                  // "Empty array."
    | NotAllStrings               // "Not all elements are strings."
    | CacheError(e: ContainerError)  // thrown by the load cache while the loads are requested
    | NotAnInteger                // "Not an integer value."
    | FrameNotPositive            // "Animation frame must be a positive integer value greater than zero."
    | FrameNotAvailable(frame: int)  // "Frame ${value} is not available."
    | NullFrames                  // "Animation frames cannot be null or undefined."
    | EmptyFrameList              // "Cannot accept an empty array as the animation frames list."
    | UnexpectedFramesFormat      // "Unexpected frames format."
    | ValueNotAnInteger           // "Value is not an integer."
    | FrameUnavailable            // "Frame is not available."
    | NullOrigin                  // "Origin cannot be null or undefined."
    | OriginNotPair               // "Origin must be an array with exactly 2 elements [x, y]."
    | OriginNotNumbers            // "Origin values must be numbers."
    | LoadFailed(path: string)    // the rejection "Failed to load sprite: ${filepath}"

  /** An opaque image object: the path its `src` was set to and the number of the load factory
      call that created it (each call makes a new `Image`). */
  datatype Image = Image(src: string, serial: nat)

  /** `#getAnimationFrameIndex`: a 1-based frame number to a 0-based sprite index. */
  function FrameIndex(value: JsValue, spriteCount: nat): (r: Result<nat, SpriteError>)
    ensures r.Success? <==> IsIntegerValue(value) && 1 <= IntegerOf(value) <= spriteCount
    ensures r.Success? ==> r.value < spriteCount && r.value + 1 == IntegerOf(value)
    ensures !IsIntegerValue(value) ==> r == Failure(NotAnInteger)
  {
    if !IsIntegerValue(value) then Failure(NotAnInteger)
    else if IntegerOf(value) < 1 then Failure(FrameNotPositive)
    else if IntegerOf(value) - 1 >= spriteCount then Failure(FrameNotAvailable(IntegerOf(value)))
    else Success(IntegerOf(value) - 1)
  }

  /** The `forEach` over an array of frame numbers: every element resolved in order, or the
      error of the first element that does not resolve. */
  function ResolveEach(values: seq<JsValue>, spriteCount: nat): (r: Result<seq<nat>, SpriteError>)
    ensures r.Success? ==>
      |r.value| == |values| &&
      forall k :: 0 <= k < |values| ==> FrameIndex(values[k], spriteCount) == Success(r.value[k])
    ensures r.Failure? ==>
      exists k :: 0 <= k < |values| && FrameIndex(values[k], spriteCount) == Failure(r.error) &&
        forall j :: 0 <= j < k ==> FrameIndex(values[j], spriteCount).Success?
  {
    if values == [] then Success([])
    else
      var init := values[..|values| - 1];
      match ResolveEach(init, spriteCount)
      case Failure(e) => Failure(e)
      case Success(fs) =>
        match FrameIndex(values[|values| - 1], spriteCount)
        case Failure(e) => Failure(e)
        case Success(i) => Success(fs + [i])
  }

  /** Resolving one more value: the earlier failure, else this value's failure, else one more index. */
  lemma ResolveEachSnoc(values: seq<JsValue>, v: JsValue, spriteCount: nat)
    ensures ResolveEach(values + [v], spriteCount) ==
      match ResolveEach(values, spriteCount)
      case Failure(e) => Failure(e)
      case Success(fs) =>
        match FrameIndex(v, spriteCount)
        case Failure(e) => Failure(e)
        case Success(i) => Success(fs + [i])
  {
    assert (values + [v])[..|values|] == values;
  }

  /** A failure in a prefix of the list is the failure of the whole list. */
  lemma {:induction false} ResolveEachPrefixFailure(values: seq<JsValue>, k: nat, spriteCount: nat)
    requires k <= |values|
    requires ResolveEach(values[..k], spriteCount).Failure?
    ensures ResolveEach(values, spriteCount) == ResolveEach(values[..k], spriteCount)
    decreases |values|
  {
    if k < |values| {
      var init := values[..|values| - 1];
      assert init[..k] == values[..k];
      ResolveEachPrefixFailure(init, k, spriteCount);
    } else {
      assert values[..k] == values;
    }
  }

  /** `Array.from({length: b - a + 1}, (_, i) => a + i)`: the consecutive indices `a..b`. */
  function Range(a: nat, b: nat): (r: seq<nat>)
    requires a <= b
    ensures |r| == b - a + 1 && r[0] == a && r[|r| - 1] == b
    ensures forall k :: 0 <= k < |r| ==> r[k] == a + k
  {
    seq(b - a + 1, k => a + k)
  }

  /** What the `AnimationFrames` setter stores for `value`, or the error it throws. */
  function ResolveFrames(value: JsValue, spriteCount: nat): (r: Result<seq<nat>, SpriteError>)
    ensures r.Success? ==> |r.value| >= 1 && forall k :: 0 <= k < |r.value| ==> r.value[k] < spriteCount
  {
    if value.Null? || value.Undefined? then Failure(NullFrames)
    else if IsIntegerValue(value) then
      match FrameIndex(value, spriteCount)
      case Failure(e) => Failure(e)
      case Success(i) => Success([i])
    else if value.Arr? then
      if |value.elems| == 0 then Failure(EmptyFrameList)
      else
        match ResolveEach(value.elems, spriteCount)
        case Failure(e) => Failure(e)
        case Success(fs) =>
          if |fs| == 2 then
            var lo := if fs[0] <= fs[1] then fs[0] else fs[1];
            var hi := if fs[0] <= fs[1] then fs[1] else fs[0];
            Success(Range(lo, hi))
          else Success(fs)
    else Failure(UnexpectedFramesFormat)
  }

  /** An integer `v` selects the single frame `v - 1`. */
  lemma SingleFrame(v: int, spriteCount: nat)
    requires 1 <= v <= spriteCount
    ensures ResolveFrames(IntNum(v), spriteCount) == Success([v - 1])
  {
  }

  /** A two-element array is a range: both ends are validated, sorted ascending and expanded, so
      the frame list holds `|a - b| + 1` strictly ascending consecutive indices from
      `min(a, b) - 1` to `max(a, b) - 1`. */
  lemma TwoElementRange(a: int, b: int, spriteCount: nat)
    requires 1 <= a <= spriteCount && 1 <= b <= spriteCount
    ensures var r := ResolveFrames(Arr([IntNum(a), IntNum(b)]), spriteCount);
      var lo := if a <= b then a else b;
      r.Success? &&
      |r.value| == (if a <= b then b - a else a - b) + 1 &&
      (forall k :: 0 <= k < |r.value| ==> r.value[k] == lo - 1 + k) &&
      (forall j, k :: 0 <= j < k < |r.value| ==> r.value[j] < r.value[k])
  {
    var vs := [IntNum(a), IntNum(b)];
    ResolveEachSnoc([], IntNum(a), spriteCount);
    ResolveEachSnoc([IntNum(a)], IntNum(b), spriteCount);
    assert [] + [IntNum(a)] == [IntNum(a)] && [IntNum(a)] + [IntNum(b)] == vs;
  }

  /** Every element of a non-empty array, the two ends of a range included, is validated: the
      setter throws at the first element that is not a valid frame number. Any array other than
      a pair is an explicit list: element `k` becomes `values[k] - 1`, in the given order. */
  lemma ExplicitFrameList(values: seq<JsValue>, spriteCount: nat)
    requires |values| >= 1
    ensures var r := ResolveFrames(Arr(values), spriteCount);
      (r.Success? <==> forall k :: 0 <= k < |values| ==> FrameIndex(values[k], spriteCount).Success?) &&
      (|values| != 2 && r.Success? ==>
         |r.value| == |values| && forall k :: 0 <= k < |values| ==> r.value[k] == IntegerOf(values[k]) - 1)
  {
    var r := ResolveEach(values, spriteCount);
    if r.Failure? {
      var k :| 0 <= k < |values| && FrameIndex(values[k], spriteCount) == Failure(r.error);
    }
  }

  /** `null`, `undefined`, an empty array and anything that is neither an integer nor an array
      make the setter throw. */
  lemma RejectedFrameShapes(value: JsValue, spriteCount: nat)
    requires value.Null? || value.Undefined? || value == Arr([]) || (!IsIntegerValue(value) && !value.Arr?)
    ensures ResolveFrames(value, spriteCount).Failure?
  {
  }

  /** The cursor after `NextFrame`: one step forward, wrapping over the sprite count. */
  function NextCursor(cursor: int, spriteCount: nat): (c: int)
    requires spriteCount >= 1
    ensures 0 <= c < spriteCount
  {
    (cursor + 1) % spriteCount
  }

  /** The cursor after `PreviousFrame`: one step back, wrapping to the last sprite. */
  function PreviousCursor(cursor: int, spriteCount: nat): (c: int)
    requires spriteCount >= 1 && 0 <= cursor < spriteCount
    ensures 0 <= c < spriteCount
  {
    var c := cursor - 1;
    if c < 0 then spriteCount - 1 else c
  }

  /** The cursor after `k` calls to `NextFrame`. */
  function Advance(cursor: int, spriteCount: nat, k: nat): int
    requires spriteCount >= 1
  {
    if k == 0 then cursor else NextCursor(Advance(cursor, spriteCount, k - 1), spriteCount)
  }

  /** The remainder of `x` by `n` is the `m` of any decomposition `x == q * n + m` with `0 <= m < n`. */
  lemma ModUnique(x: int, n: int, q: int, m: int)
    requires n > 0 && 0 <= m < n && x == q * n + m
    ensures x % n == m
  {
    var q', m' := x / n, x % n;
    assert (q - q') * n == m' - m;
    if q - q' >= 1 {
      assert false;
    } else if q - q' <= -1 {
      assert false;
    }
  }

  /** Stepping the remainder is stepping the number. */
  lemma ModStep(x: int, n: int)
    requires n > 0
    ensures (x % n + 1) % n == (x + 1) % n
  {
    var q, m := x / n, x % n;
    if m + 1 < n {
      ModUnique(x + 1, n, q, m + 1);
      ModUnique(m + 1, n, 0, m + 1);
    } else {
      ModUnique(x + 1, n, q + 1, 0);
      ModUnique(m + 1, n, 1, 0);
    }
  }

  /** `k` calls to `NextFrame` move a cursor `k` places forward modulo the sprite count. */
  lemma {:induction false} AdvanceIsModular(cursor: int, spriteCount: nat, k: nat)
    requires spriteCount >= 1 && 0 <= cursor < spriteCount
    ensures Advance(cursor, spriteCount, k) == (cursor + k) % spriteCount
  {
    if k > 0 {
      AdvanceIsModular(cursor, spriteCount, k - 1);
      ModStep(cursor + k - 1, spriteCount);
    } else {
      ModUnique(cursor, spriteCount, 0, cursor);
    }
  }

  /** `NextFrame` called once per sprite brings the cursor back to where it started. */
  lemma NextFrameCycle(cursor: int, spriteCount: nat)
    requires spriteCount >= 1 && 0 <= cursor < spriteCount
    ensures Advance(cursor, spriteCount, spriteCount) == cursor
  {
    AdvanceIsModular(cursor, spriteCount, spriteCount);
    ModUnique(cursor + spriteCount, spriteCount, 1, cursor);
  }

  /** `PreviousFrame` and `NextFrame` undo each other. */
  lemma PreviousNextInverse(cursor: int, spriteCount: nat)
    requires spriteCount >= 1 && 0 <= cursor < spriteCount
    ensures NextCursor(PreviousCursor(cursor, spriteCount), spriteCount) == cursor
    ensures PreviousCursor(NextCursor(cursor, spriteCount), spriteCount) == cursor
  {
    ModUnique(spriteCount, spriteCount, 1, 0);
    ModUnique(cursor, spriteCount, 0, cursor);
    if cursor + 1 < spriteCount {
      ModUnique(cursor + 1, spriteCount, 0, cursor + 1);
    }
  }

  /** The keys the load cache holds after `#initialize` has passed the paths to `AddOrGet`, which
      is also the list of paths whose load factory ran, in order: a path is skipped when its trim
      is already stored, otherwise it is requested and stored as given. */
  function RequestedPaths(paths: seq<string>): (r: seq<string>)
    ensures |r| <= |paths|
  {
    if paths == [] then []
    else
      var prev := RequestedPaths(paths[..|paths| - 1]);
      var p := paths[|paths| - 1];
      if Trim(p) in prev then prev else prev + [p]
  }

  /** With paths that are their own trim, the factory runs once per distinct path: every path is
      requested, and none twice. */
  lemma {:induction false} RequestedOncePerDistinctPath(paths: seq<string>)
    requires forall k :: 0 <= k < |paths| ==> paths[k] == Trim(paths[k])
    ensures forall p :: p in paths <==> p in RequestedPaths(paths)
    ensures forall j, k :: 0 <= j < k < |RequestedPaths(paths)| ==>
      RequestedPaths(paths)[j] != RequestedPaths(paths)[k]
  {
    if paths != [] {
      var init := paths[..|paths| - 1];
      RequestedOncePerDistinctPath(init);
      assert paths == init + [paths[|paths| - 1]];
    }
  }

  /** One more path either hits a stored trim or is appended. */
  lemma RequestedPathsStep(paths: seq<string>, k: nat)
    requires k < |paths|
    ensures var prev := RequestedPaths(paths[..k]);
      RequestedPaths(paths[..k + 1]) == if Trim(paths[k]) in prev then prev else prev + [paths[k]]
  {
    assert paths[..k + 1][..k] == paths[..k];
  }

  /** The images the load factory creates for the requested paths, numbered by call. */
  function Images(paths: seq<string>): (r: seq<Image>)
    ensures |r| == |paths| && forall k :: 0 <= k < |r| ==> r[k] == Image(paths[k], k)
  {
    seq(|paths|, k requires 0 <= k < |paths| => Image(paths[k], k))
  }

  lemma ImagesAppend(paths: seq<string>, p: string)
    ensures Images(paths + [p]) == Images(paths) + [Image(p, |paths|)]
  {
  }

  /** The load factory `#initialize` passes to `AddOrGet`: it creates a new image whose `src` is the
      path and requests its load (the request itself is recorded by the caller). */
  function LoadFactory(serial: nat): (f: JsValue -> Option<Image>)
    ensures forall p: string :: f(Str(p)) == Some(Image(p, serial))
  {
    (key: JsValue) => Some(Image(if key.Str? then key.s else "", serial))
  }

  /** The cache values that hold `images`: every one non-null. */
  function Stored(images: seq<Image>): (r: seq<Option<Image>>)
    ensures |r| == |images| && forall m :: 0 <= m < |r| ==> r[m] == Some(images[m])
  {
    seq(|images|, m requires 0 <= m < |images| => Some(images[m]))
  }

  lemma StoredAppend(images: seq<Image>, img: Image)
    ensures Stored(images + [img]) == Stored(images) + [Some(img)]
  {
  }

  /** The strings of an array whose elements are all strings. */
  function Texts(values: seq<JsValue>): (r: seq<string>)
    requires forall k :: 0 <= k < |values| ==> values[k].Str?
    ensures |r| == |values| && forall k :: 0 <= k < |r| ==> Str(r[k]) == values[k]
  {
    seq(|values|, k requires 0 <= k < |values| => values[k].s)
  }

  /** Every path is a valid cache key; stated element by element from the back. */
  predicate AllKeysValid(paths: seq<string>)
  {
    paths == [] || (AllKeysValid(paths[..|paths| - 1]) && KeyValid(Str(paths[|paths| - 1])))
  }

  lemma {:induction false} AllKeysValidMeans(paths: seq<string>)
    ensures AllKeysValid(paths) <==> forall k :: 0 <= k < |paths| ==> KeyValid(Str(paths[k]))
  {
    if paths != [] {
      AllKeysValidMeans(paths[..|paths| - 1]);
    }
  }

  /** A prefix with an invalid key makes the whole list invalid. */
  lemma NotAllKeysValid(paths: seq<string>, k: nat)
    requires k <= |paths| && !AllKeysValid(paths[..k])
    ensures !AllKeysValid(paths)
  {
    AllKeysValidMeans(paths[..k]);
    AllKeysValidMeans(paths);
  }

  /** A completion order of `n` loads: `n` settlements in which every load settles, so each load
      settles exactly once. */
  predicate IsCompletionOrder(order: seq<nat>, n: nat)
  {
    |order| == n &&
    (forall k :: 0 <= k < n ==> order[k] < n) &&
    (forall i :: 0 <= i < n ==> i in order)
  }

  /** The sprite pool after the loads settle in `order`: each `onload` pushes its image, each
      `onerror` pushes nothing. */
  function Settled(images: seq<Image>, order: seq<nat>, ok: nat -> bool): (r: seq<Image>)
    requires forall k :: 0 <= k < |order| ==> order[k] < |images|
    ensures |r| <= |order|
  {
    if order == [] then []
    else
      var i := order[|order| - 1];
      Settled(images, order[..|order| - 1], ok) + if ok(i) then [images[i]] else []
  }

  /** When every load succeeds the pool holds the images in completion order. */
  lemma {:induction false} SettledAllLoaded(images: seq<Image>, order: seq<nat>, ok: nat -> bool)
    requires forall k :: 0 <= k < |order| ==> order[k] < |images| && ok(order[k])
    ensures var r := Settled(images, order, ok);
      |r| == |order| && forall k :: 0 <= k < |order| ==> r[k] == images[order[k]]
  {
    if order != [] {
      var init := order[..|order| - 1];
      SettledAllLoaded(images, init, ok);
      assert ok(order[|order| - 1]);
      assert Settled(images, order, ok) == Settled(images, init, ok) + [images[order[|order| - 1]]];
    }
  }

  /** When no load fails in a completion order, every image is loaded and lands in the pool. */
  lemma SettledCoversAll(images: seq<Image>, order: seq<nat>, ok: nat -> bool)
    requires IsCompletionOrder(order, |images|)
    requires forall k :: 0 <= k < |order| ==> ok(order[k])
    ensures var r := Settled(images, order, ok);
      |r| == |images| && (forall k :: 0 <= k < |order| ==> r[k] == images[order[k]]) &&
      forall i :: 0 <= i < |images| ==> ok(i) && images[i] in r
  {
    SettledAllLoaded(images, order, ok);
    var r := Settled(images, order, ok);
    forall i | 0 <= i < |images|
      ensures ok(i) && images[i] in r
    {
      assert i in order;
      var j :| 0 <= j < |order| && order[j] == i;
      assert r[j] == images[i];
    }
  }

  /** An array whose elements are all strings, as `every(isString)` tests. */
  predicate AllStrings(paths: JsValue)
  {
    paths.Arr? && forall k :: 0 <= k < |paths.elems| ==> paths.elems[k].Str?
  }

  /** A path array that `#initialize` requests in full: non-empty, all strings, all valid keys. */
  predicate WellFormedPaths(paths: JsValue)
  {
    AllStrings(paths) && |paths.elems| >= 1 &&
    forall k :: 0 <= k < |paths.elems| ==> KeyValid(paths.elems[k])
  }

  /** The paths whose load is requested, in request order. */
  function LoadedPaths(paths: JsValue): seq<string>
    requires AllStrings(paths)
  {
    RequestedPaths(Texts(paths.elems))
  }

  /** Settlement `j` of `order` is the first load to fail. */
  predicate FirstFailure(order: seq<nat>, ok: nat -> bool, j: int)
  {
    0 <= j < |order| && !ok(order[j]) && forall i :: 0 <= i < j ==> ok(order[i])
  }

  /** `path` is the path of the first load in `order` to fail, which `Promise.all` rejects with. */
  ghost predicate FirstFailedPath(loaded: seq<string>, order: seq<nat>, ok: nat -> bool, path: string)
  {
    exists j :: FirstFailure(order, ok, j) && order[j] < |loaded| && path == loaded[order[j]]
  }

  lemma FirstFailedImage(loaded: seq<string>, order: seq<nat>, ok: nat -> bool, j: int)
    requires FirstFailure(order, ok, j) && order[j] < |loaded|
    ensures FirstFailedPath(loaded, order, ok, Images(loaded)[order[j]].src)
  {
  }

  class SpriteSet {
    var sprites: seq<Image>       // #sprites
    var frames: seq<nat>          // #animationFrameIndices
    var cursor: int               // #currentFrameIndex
    const cache: Dictionary<Image>  // #cache
    var requested: seq<Image>     // the images whose load promises #initialize awaits
    var originX: Number           // #originX
    var originY: Number           // #originY

    /** A loaded set: at least one sprite, every frame index and the cursor index `#sprites`. */
    ghost predicate Valid()
      reads this, cache
    {
      cache.Valid() &&
      |sprites| >= 1 &&
      (forall k :: 0 <= k < |frames| ==> frames[k] < |sprites|) &&
      0 <= cursor < |sprites|
    }

    /** The private constructor: empty pool, empty frame list, cursor and origin 0, empty cache. */
    constructor ()
      ensures fresh(cache) && cache.Valid() && cache.keys == []
      ensures sprites == [] && frames == [] && cursor == 0 && requested == []
      ensures originX == Finite(0.0) && originY == Finite(0.0)
    {
      sprites, frames, cursor, requested := [], [], 0, [];
      originX, originY := Finite(0.0), Finite(0.0);
      cache := new Dictionary<Image>();
    }

    /** The cache holds one image per requested load, keyed by its path, in request order. */
    ghost predicate Tracked()
      reads this, cache
    {
      cache.Valid() && requested == Images(cache.keys) && cache.values == Stored(requested)
    }

    /** The `forEach` callback of `#initialize` for one path: `AddOrGet` with the load factory.
        On a miss the factory creates the next image and its load is requested; an invalid key
        then makes `Add` throw. */
    method RequestLoad(path: JsValue) returns (r: Outcome<SpriteError>)
      requires path.Str? && Tracked()
      modifies this`requested, cache
      ensures cache.Valid()
      ensures r.Pass? ==> Tracked()
      ensures r.Fail? ==> requested == old(requested) + [Image(path.s, |old(requested)|)]
      ensures r.Pass? <==> KeyValid(path)
      ensures r.Fail? ==> r.error == CacheError(InvalidKey)
      ensures r.Pass? ==>
        cache.keys == if Trim(path.s) in old(cache.keys) then old(cache.keys) else old(cache.keys) + [path.s]
    {
      ghost var keys0, values0 := cache.keys, cache.values;
      ghost var hit := KeyValid(path) && Trim(path.s) in keys0;
      if hit {
        var i := IndexOf(keys0, Trim(path.s));
        assert cache.Get(path) == Stored(requested)[i];
      }
      var serial := |requested|;
      var loaded, called := cache.AddOrGet(path, Some(LoadFactory(serial)));
      if called {
        requested := requested + [Image(path.s, serial)];
      }
      if loaded.Failure? {
        return Fail(CacheError(loaded.error));
      }
      assert called == !hit;
      if called {
        assert cache.keys == keys0 + [path.s] && cache.values == values0 + [Some(Image(path.s, serial))];
        ImagesAppend(keys0, path.s);
        StoredAppend(old(requested), Image(path.s, serial));
      }
      r := Pass;
    }

    /** `SpriteSet.Create`: a new set, initialised from `paths`, whose loads settle in the order
        `schedule(n)` for `n` requested loads, load `i` succeeding when `ok(i)`. The second
        argument of `Create` is handed to `#initialize`, which never reads it, so it is left out. */
    static method Create(paths: JsValue, schedule: nat -> seq<nat>, ok: nat -> bool)
      returns (r: Result<SpriteSet, SpriteError>)
      requires forall n: nat :: IsCompletionOrder(schedule(n), n)
      ensures r.Success? <==> WellFormedPaths(paths) && forall i :: 0 <= i < |LoadedPaths(paths)| ==> ok(i)
      ensures !paths.Arr? ==> r == Failure(NotAnArray)
      ensures paths.Arr? && |paths.elems| == 0 ==> r == Failure(EmptyArray)
      ensures paths.Arr? && |paths.elems| > 0 && !AllStrings(paths) ==> r == Failure(NotAllStrings)
      ensures AllStrings(paths) && |paths.elems| > 0 && !WellFormedPaths(paths) ==> r == Failure(CacheError(InvalidKey))
      ensures WellFormedPaths(paths) && r.Failure? ==>
        var loaded := LoadedPaths(paths);
        r.error.LoadFailed? && FirstFailedPath(loaded, schedule(|loaded|), ok, r.error.path)
      ensures r.Failure? ==> r.error in {NotAnArray, EmptyArray, NotAllStrings, CacheError(InvalidKey)} || r.error.LoadFailed?
      ensures r.Success? ==>
        var s := r.value;
        var loaded := LoadedPaths(paths);
        fresh(s) && fresh(s.cache) && s.Valid() &&
        s.cache.keys == loaded && s.requested == Images(loaded) &&
        s.FrameCount() == |loaded| && (forall i :: 0 <= i < |loaded| ==> Image(loaded[i], i) in s.sprites) &&
        s.frames == Range(0, |loaded| - 1) && s.CurrentFrameIndex() == 1 &&
        s.Origin() == (Finite(0.0), Finite(0.0))
    {
      var s := new SpriteSet();
      var initialized := s.Initialize(paths, schedule, ok);
      if initialized.Fail? {
        return Failure(initialized.error);
      }
      r := Success(s);
    }

    /** `#initialize` on a new set: validate the paths, request the loads through the cache, wait
        for them all, then set the frame list to every sprite. A blank path makes the cache throw;
        a failed load rejects with the path of the first load to fail. */
    method Initialize(paths: JsValue, schedule: nat -> seq<nat>, ok: nat -> bool)
      returns (r: Outcome<SpriteError>)
      requires forall n: nat :: IsCompletionOrder(schedule(n), n)
      requires cache.Valid() && cache.keys == [] && requested == []
      requires sprites == [] && frames == [] && cursor == 0
      requires originX == Finite(0.0) && originY == Finite(0.0)
      modifies this, cache
      ensures r.Pass? <==> WellFormedPaths(paths) && forall i :: 0 <= i < |LoadedPaths(paths)| ==> ok(i)
      ensures !paths.Arr? ==> r == Fail(NotAnArray)
      ensures paths.Arr? && |paths.elems| == 0 ==> r == Fail(EmptyArray)
      ensures paths.Arr? && |paths.elems| > 0 && !AllStrings(paths) ==> r == Fail(NotAllStrings)
      ensures AllStrings(paths) && |paths.elems| > 0 && !WellFormedPaths(paths) ==> r == Fail(CacheError(InvalidKey))
      ensures WellFormedPaths(paths) && r.Fail? ==>
        var loaded := LoadedPaths(paths);
        r.error.LoadFailed? && FirstFailedPath(loaded, schedule(|loaded|), ok, r.error.path)
      ensures r.Fail? ==> r.error in {NotAnArray, EmptyArray, NotAllStrings, CacheError(InvalidKey)} || r.error.LoadFailed?
      ensures r.Pass? ==>
        var loaded := LoadedPaths(paths);
        Valid() && cache.keys == loaded && requested == Images(loaded) &&
        FrameCount() == |loaded| && (forall i :: 0 <= i < |loaded| ==> Image(loaded[i], i) in sprites) &&
        frames == Range(0, |loaded| - 1) && CurrentFrameIndex() == 1 &&
        Origin() == (Finite(0.0), Finite(0.0))
    {
      var requestedAll := RequestLoads(paths);
      if requestedAll.Fail? {
        return requestedAll;
      }
      r := AwaitLoads(LoadedPaths(paths), schedule, ok);
    }

    /** The `Promise.all` half of `#initialize`, once the load of every path in `loaded` has been
        requested: it waits for the loads to settle in the order `schedule` gives. */
    method AwaitLoads(ghost loaded: seq<string>, schedule: nat -> seq<nat>, ok: nat -> bool)
      returns (r: Outcome<SpriteError>)
      requires forall n: nat :: IsCompletionOrder(schedule(n), n)
      requires cache.Valid() && cache.keys == loaded && requested == Images(loaded) && |loaded| >= 1
      requires sprites == [] && frames == [] && cursor == 0
      requires originX == Finite(0.0) && originY == Finite(0.0)
      modifies this
      ensures cache.Valid() && cache.keys == loaded && requested == Images(loaded)
      ensures r.Pass? <==> forall i :: 0 <= i < |loaded| ==> ok(i)
      ensures r.Fail? ==> r.error.LoadFailed? && FirstFailedPath(loaded, schedule(|loaded|), ok, r.error.path)
      ensures r.Pass? ==>
        Valid() && FrameCount() == |loaded| && (forall i :: 0 <= i < |loaded| ==> Image(loaded[i], i) in sprites) &&
        frames == Range(0, |loaded| - 1) && CurrentFrameIndex() == 1 &&
        Origin() == (Finite(0.0), Finite(0.0))
    {
      assert |requested| == |loaded|;
      var order := schedule(|requested|);
      r := CompleteLoads(order, ok);
      if r.Fail? {
        var j :| 0 <= j < |order| && !ok(order[j]) && (forall i :: 0 <= i < j ==> ok(order[i])) &&
          r.error == LoadFailed(requested[order[j]].src);
        FirstFailedImage(loaded, order, ok, j);
      }
    }

    /** The `forEach` of `#initialize` over validated string paths, stopping at the first throw. */
    method RequestAll(paths: seq<string>) returns (r: Outcome<SpriteError>)
      requires cache.Valid() && cache.keys == [] && requested == []
      modifies this`requested, cache
      ensures cache.Valid()
      ensures r.Pass? <==> AllKeysValid(paths)
      ensures r.Fail? ==> r.error == CacheError(InvalidKey)
      ensures r.Pass? ==> cache.keys == RequestedPaths(paths) && requested == Images(cache.keys)
    {
      var k := 0;
      while k < |paths|
        invariant 0 <= k <= |paths|
        invariant Tracked()
        invariant AllKeysValid(paths[..k])
        invariant cache.keys == RequestedPaths(paths[..k])
      {
        r := RequestNext(paths, k);
        if r.Fail? {
          return;
        }
        k := k + 1;
      }
      assert paths[..k] == paths;
      r := Pass;
    }

    /** One step of that `forEach`: the path `paths[k]`. */
    method RequestNext(paths: seq<string>, k: nat) returns (r: Outcome<SpriteError>)
      requires k < |paths| && Tracked()
      requires AllKeysValid(paths[..k]) && cache.keys == RequestedPaths(paths[..k])
      modifies this`requested, cache
      ensures cache.Valid()
      ensures r.Pass? ==> Tracked() && AllKeysValid(paths[..k + 1]) && cache.keys == RequestedPaths(paths[..k + 1])
      ensures r.Fail? ==> !AllKeysValid(paths) && r.error == CacheError(InvalidKey)
    {
      RequestedPathsStep(paths, k);
      r := RequestLoad(Str(paths[k]));
      assert paths[..k + 1][..k] == paths[..k];
      if r.Fail? {
        NotAllKeysValid(paths, k + 1);
      }
    }

    /** The synchronous part of `#initialize`: validate the path array, then pass every path to
        the cache's `AddOrGet`, whose factory creates an image and requests its load. A blank path
        makes the factory run and then `Add` throw. */
    method RequestLoads(paths: JsValue) returns (r: Outcome<SpriteError>)
      requires cache.Valid() && cache.keys == [] && requested == []
      modifies this`requested, cache
      ensures cache.Valid()
      ensures !paths.Arr? ==> r == Fail(NotAnArray) && requested == []
      ensures paths.Arr? && |paths.elems| == 0 ==> r == Fail(EmptyArray) && requested == []
      ensures paths.Arr? && |paths.elems| > 0 && !AllStrings(paths) ==> r == Fail(NotAllStrings) && requested == []
      ensures AllStrings(paths) && |paths.elems| > 0 && !WellFormedPaths(paths) ==> r == Fail(CacheError(InvalidKey))
      ensures r.Pass? <==> WellFormedPaths(paths)
      ensures r.Pass? ==> cache.keys == LoadedPaths(paths) && requested == Images(cache.keys) && |requested| >= 1
    {
      if !paths.Arr? {
        return Fail(NotAnArray);
      }
      if |paths.elems| == 0 {
        return Fail(EmptyArray);
      }
      if !AllStrings(paths) {
        return Fail(NotAllStrings);
      }
      r := RequestAll(Texts(paths.elems));
      AllKeysValidMeans(Texts(paths.elems));
    }

    /** The settlement of the loads in `order`: the images the `onload` handlers push, and the path
        of the first load whose `onerror` fires, which is the rejection `Promise.all` reports. */
    static method Settle(images: seq<Image>, order: seq<nat>, ok: nat -> bool)
      returns (pushed: seq<Image>, failed: Option<string>)
      requires forall k :: 0 <= k < |order| ==> order[k] < |images|
      ensures pushed == Settled(images, order, ok)
      ensures failed.None? <==> forall k :: 0 <= k < |order| ==> ok(order[k])
      ensures failed.Some? ==>
        exists j :: 0 <= j < |order| && !ok(order[j]) && (forall i :: 0 <= i < j ==> ok(order[i])) &&
          failed.value == images[order[j]].src
    {
      pushed, failed := [], None;
      var k := 0;
      while k < |order|
        invariant 0 <= k <= |order|
        invariant pushed == Settled(images, order[..k], ok)
        invariant failed.None? <==> forall i :: 0 <= i < k ==> ok(order[i])
        invariant failed.Some? ==>
          exists j :: 0 <= j < k && !ok(order[j]) && (forall i :: 0 <= i < j ==> ok(order[i])) &&
            failed.value == images[order[j]].src
      {
        var i := order[k];
        assert order[..k + 1][..k] == order[..k];
        if ok(i) {
          pushed := pushed + [images[i]];
        } else if failed.None? {
          failed := Some(images[i].src);
        }
        k := k + 1;
      }
      assert order[..k] == order;
    }

    /** The asynchronous part of `#initialize`: the requested loads settle in `order`, `ok(i)`
        telling whether load `i` succeeds. `Promise.all` rejects with the first failure to settle;
        otherwise every image has been pushed and the `AnimationFrames` setter is given
        `[1, #sprites.length]`. */
    method CompleteLoads(order: seq<nat>, ok: nat -> bool) returns (r: Outcome<SpriteError>)
      requires cache.Valid() && |requested| >= 1 && IsCompletionOrder(order, |requested|)
      requires sprites == [] && frames == [] && cursor == 0
      modifies this
      ensures cache.Valid() && requested == old(requested)
      ensures originX == old(originX) && originY == old(originY)
      ensures sprites == Settled(requested, order, ok)
      ensures r.Pass? <==> forall i :: 0 <= i < |requested| ==> ok(i)
      ensures r.Fail? ==>
        exists j :: 0 <= j < |order| && !ok(order[j]) && (forall i :: 0 <= i < j ==> ok(order[i])) &&
          r.error == LoadFailed(requested[order[j]].src)
      ensures r.Pass? ==>
        Valid() && |sprites| == |requested| &&
        (forall k :: 0 <= k < |order| ==> sprites[k] == requested[order[k]]) &&
        (forall i :: 0 <= i < |requested| ==> requested[i] in sprites) &&
        frames == Range(0, |sprites| - 1) && cursor == 0
    {
      var failed;
      sprites, failed := Settle(requested, order, ok);
      if failed.Some? {
        return Fail(LoadFailed(failed.value));
      }
      SettledCoversAll(requested, order, ok);
      var n := |sprites|;
      TwoElementRange(1, n, n);
      r := SetAnimationFrames(Arr([IntNum(1), IntNum(n)]));
    }

    /** The `forEach` of the `AnimationFrames` setter: `#getAnimationFrameIndex` on each value in
        turn, stopping at the first throw. */
    static method ResolveAll(values: seq<JsValue>, n: nat) returns (r: Result<seq<nat>, SpriteError>)
      ensures r == ResolveEach(values, n)
    {
      var resolved: seq<nat> := [];
      var k := 0;
      while k < |values|
        invariant 0 <= k <= |values|
        invariant ResolveEach(values[..k], n) == Success(resolved)
      {
        var i := FrameIndex(values[k], n);
        ResolveEachSnoc(values[..k], values[k], n);
        assert values[..k + 1] == values[..k] + [values[k]];
        if i.Failure? {
          ResolveEachPrefixFailure(values, k + 1, n);
          return Failure(i.error);
        }
        resolved := resolved + [i.value];
        k := k + 1;
      }
      assert values[..k] == values;
      r := Success(resolved);
    }

    /** The `AnimationFrames` setter: the frame list `ResolveFrames` describes, and the cursor back
        at the start; on a throw nothing changes. */
    method SetAnimationFrames(value: JsValue) returns (r: Outcome<SpriteError>)
      requires Valid()
      modifies this
      ensures Valid()
      ensures sprites == old(sprites) && requested == old(requested)
      ensures originX == old(originX) && originY == old(originY)
      ensures var expected := ResolveFrames(value, |sprites|);
        (r.Pass? <==> expected.Success?) &&
        (r.Pass? ==> frames == expected.value && cursor == 0) &&
        (r.Fail? ==> r.error == expected.error && frames == old(frames) && cursor == old(cursor))
    {
      var n := |sprites|;
      if value.Null? || value.Undefined? {
        return Fail(NullFrames);
      }
      if IsIntegerValue(value) {
        var i := FrameIndex(value, n);
        if i.Failure? {
          return Fail(i.error);
        }
        frames := [i.value];
      } else if value.Arr? {
        if |value.elems| == 0 {
          return Fail(EmptyFrameList);
        }
        var each := ResolveAll(value.elems, n);
        if each.Failure? {
          return Fail(each.error);
        }
        var resolved := each.value;
        if |resolved| == 2 {
          var a, b := resolved[0], resolved[1];
          if b < a {
            a, b := b, a;
          }
          resolved := Range(a, b);
        }
        frames := resolved;
      } else {
        return Fail(UnexpectedFramesFormat);
      }
      cursor := 0;
      r := Pass;
    }

    /** The `CurrentFrameIndex` setter: a 1-based sprite number. */
    method SetCurrentFrameIndex(value: JsValue) returns (r: Outcome<SpriteError>)
      requires Valid()
      modifies this
      ensures Valid()
      ensures sprites == old(sprites) && frames == old(frames) && requested == old(requested)
      ensures originX == old(originX) && originY == old(originY)
      ensures !IsIntegerValue(value) ==> r == Fail(ValueNotAnInteger)
      ensures IsIntegerValue(value) ==>
        (r.Pass? <==> 1 <= IntegerOf(value) <= |sprites|) && (r.Fail? ==> r.error == FrameUnavailable)
      ensures r.Pass? ==> CurrentFrameIndex() == IntegerOf(value)
      ensures r.Fail? ==> cursor == old(cursor)
    {
      if !IsIntegerValue(value) {
        return Fail(ValueNotAnInteger);
      }
      var v := IntegerOf(value);
      if v < 1 || v > |sprites| {
        return Fail(FrameUnavailable);
      }
      cursor := v - 1;
      r := Pass;
    }

    /** The `CurrentFrameIndex` getter: the cursor as a 1-based sprite number. */
    function CurrentFrameIndex(): (r: int)
      reads this, cache
      ensures Valid() ==> 1 <= r <= FrameCount()
    {
      cursor + 1
    }

    /** The `Origin` setter: a pair of numbers (any numbers, `NaN` and the infinities included). */
    method SetOrigin(value: JsValue) returns (r: Outcome<SpriteError>)
      modifies this
      ensures sprites == old(sprites) && frames == old(frames) && cursor == old(cursor)
      ensures requested == old(requested)
      ensures value.Null? || value.Undefined? ==> r == Fail(NullOrigin)
      ensures !value.Null? && !value.Undefined? && !(value.Arr? && |value.elems| == 2) ==> r == Fail(OriginNotPair)
      ensures value.Arr? && |value.elems| == 2 ==>
        (r.Pass? <==> value.elems[0].Num? && value.elems[1].Num?) &&
        (r.Fail? ==> r.error == OriginNotNumbers)
      ensures r.Pass? ==> Origin() == (value.elems[0].n, value.elems[1].n)
      ensures r.Fail? ==> Origin() == old(Origin())
    {
      if value.Null? || value.Undefined? {
        return Fail(NullOrigin);
      }
      if !value.Arr? || |value.elems| != 2 {
        return Fail(OriginNotPair);
      }
      if !value.elems[0].Num? || !value.elems[1].Num? {
        return Fail(OriginNotNumbers);
      }
      originX, originY := value.elems[0].n, value.elems[1].n;
      r := Pass;
    }

    /** The `Origin` getter. */
    function Origin(): (Number, Number)
      reads this
    {
      (originX, originY)
    }

    /** `CurrentFrameImage`: the sprite under the cursor, or `undefined` past the pool. */
    function CurrentFrameImage(): (r: Option<Image>)
      reads this, cache
      ensures r.Some? <==> 0 <= cursor < |sprites|
      ensures r.Some? ==> r.value in sprites
      ensures Valid() ==> r.Some?
    {
      if 0 <= cursor < |sprites| then Some(sprites[cursor]) else None
    }

    /** `FrameCount`: the number of loaded sprites. */
    function FrameCount(): nat
      reads this
    {
      |sprites|
    }

    /** `NextFrame`: one sprite forward, wrapping to the first. */
    method NextFrame()
      requires Valid()
      modifies this
      ensures sprites == old(sprites) && frames == old(frames) && requested == old(requested)
      ensures Valid() && cursor == NextCursor(old(cursor), |sprites|)
      ensures originX == old(originX) && originY == old(originY)
    {
      cursor := (cursor + 1) % |sprites|;
    }

    /** `PreviousFrame`: one sprite back, wrapping to the last. */
    method PreviousFrame()
      requires Valid()
      modifies this
      ensures sprites == old(sprites) && frames == old(frames) && requested == old(requested)
      ensures Valid() && cursor == PreviousCursor(old(cursor), |sprites|)
      ensures originX == old(originX) && originY == old(originY)
    {
      cursor := cursor - 1;
      if cursor < 0 {
        cursor := |sprites| - 1;
      }
    }
  }

  /** The settlement order in which load `i` is the `i`-th to finish. */
  function InRequestOrder(n: nat): (order: seq<nat>)
    ensures IsCompletionOrder(order, n)
  {
    var order := seq(n, i => i);
    assert forall i :: 0 <= i < n ==> order[i] == i && i in order by {
      forall i | 0 <= i < n
        ensures order[i] == i && i in order
      {
        assert order[i] == i;
      }
    }
    order
  }

  /** Two frame numbers out of order still give an ascending range: `[3, 1]` on five sprites is
      the frame list `[0, 1, 2]`. */
  lemma DescendingPairIsRange()
    ensures ResolveFrames(Arr([IntNum(3), IntNum(1)]), 5) == Success([0, 1, 2])
  {
    TwoElementRange(3, 1, 5);
    var r := ResolveFrames(Arr([IntNum(3), IntNum(1)]), 5);
    assert r.value[0] == 0 && r.value[1] == 1 && r.value[2] == 2;
    assert r.value == [0, 1, 2];
  }
}

/** Concrete runs of `SpriteSet.Create`. */
module SpriteScenarios {
  import opened Wrappers
  import opened Strings
  import opened JsValues
  import opened Containers
  import opened GameLib

  /** The same path twice is loaded once: the second `AddOrGet` hits the stored image. */
  method RepeatedPathLoadsOnce() returns (count: nat)
    ensures count == 1
  {
    var paths := Arr([Str("a.png"), Str("a.png")]);
    var texts := Texts(paths.elems);
    assert texts == ["a.png", "a.png"];
    assert "a.png"[0] == 'a' && "a.png"[4] == 'g';
    TrimOfTrimmed("a.png");
    assert RequestedPaths(texts[..1]) == ["a.png"] by {
      assert texts[..1][..0] == [];
    }
    assert RequestedPaths(texts) == ["a.png"];
    assert KeyValid(paths.elems[0]) && KeyValid(paths.elems[1]);
    var r := SpriteSet.Create(paths, InRequestOrder, _ => true);
    assert r.Success?;
    count := r.value.FrameCount();
  }

  /** A path with surrounding whitespace is a second load of the same file: the cache stores the
      key untrimmed, and the later lookup of `"a.png"` does not find `" a.png"`. */
  method PaddedPathLoadsAgain() returns (count: nat)
    ensures count == 2
  {
    var paths := Arr([Str(" a.png"), Str("a.png")]);
    var texts := Texts(paths.elems);
    assert texts == [" a.png", "a.png"];
    assert "a.png"[0] == 'a' && "a.png"[4] == 'g';
    TrimOfTrimmed("a.png");
    assert " a.png"[0] == ' ' && " a.png"[1..] == "a.png";
    assert Trim(" a.png") == "a.png";
    assert RequestedPaths(texts[..1]) == [" a.png"] by {
      assert texts[..1][..0] == [];
    }
    assert RequestedPaths(texts) == [" a.png", "a.png"];
    assert KeyValid(paths.elems[0]) && KeyValid(paths.elems[1]);
    var r := SpriteSet.Create(paths, InRequestOrder, _ => true);
    assert r.Success?;
    count := r.value.FrameCount();
  }
}
