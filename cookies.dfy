/** The cookie reader of global.js and the rule that decides when the page being left is
    recorded as the last page. `document.cookie` is a parameter, and writing a cookie is the
    value the handler would write. */
module Cookies {
  import opened Wrappers
  import opened Strings

  /** The position of the first piece that, once trimmed, starts with `nameEq`, or -1. */
  function MatchIndex(pieces: seq<string>, nameEq: string): (r: int)
    ensures -1 <= r < |pieces|
    ensures r == -1 <==> forall k :: 0 <= k < |pieces| ==> !StartsWith(Trim(pieces[k]), nameEq)
    ensures r >= 0 ==> StartsWith(Trim(pieces[r]), nameEq)
    ensures r >= 0 ==> forall k :: 0 <= k < r ==> !StartsWith(Trim(pieces[k]), nameEq)
  {
    if pieces == [] then -1
    else if StartsWith(Trim(pieces[0]), nameEq) then 0
    else
      var k := MatchIndex(pieces[1..], nameEq);
      if k < 0 then -1 else k + 1
  }

  /** What `getCookie(name)` returns for the cookie string `cookie`: the text after `name=` in the
      first `;`-separated, trimmed piece that starts with `name=`, or null. */
  function CookieValue(cookie: string, name: string): (r: Option<string>)
    ensures r.None? ==> forall k :: 0 <= k < |Split(cookie, ';')| ==> !StartsWith(Trim(Split(cookie, ';')[k]), name + "=")
    ensures r.Some? ==> exists k :: (0 <= k < |Split(cookie, ';')| &&
      Trim(Split(cookie, ';')[k]) == name + "=" + r.value &&
      forall m :: 0 <= m < k ==> !StartsWith(Trim(Split(cookie, ';')[m]), name + "="))
  {
    var k := MatchIndex(Split(cookie, ';'), name + "=");
    if k < 0 then None else Some(After(Trim(Split(cookie, ';')[k]), name + "="))
  }

  /** `s.substring(p.length)` for an `s` that starts with `p`. */
  function After(s: string, p: string): (r: string)
    requires StartsWith(s, p)
    ensures s == p + r
  {
    s[|p|..]
  }

  /** `getCookie`: the loop over the pieces that returns at the first match. */
  method GetCookie(cookie: string, name: string) returns (r: Option<string>)
    ensures r == CookieValue(cookie, name)
  {
    var nameEq := name + "=";
    var cookies := Split(cookie, ';');
    for i := 0 to |cookies|
      invariant forall k :: 0 <= k < i ==> !StartsWith(Trim(cookies[k]), nameEq)
    {
      var piece := Trim(cookies[i]);
      if StartsWith(piece, nameEq) {
        return Some(piece[|nameEq|..]);
      }
    }
    return None;
  }

  /** A piece `n=v` whose name has no `=` matches `name=` exactly when `n` is `name`: a name that
      only contains `name`, or extends it, is not a match. */
  lemma ExactNameMatch(n: string, v: string, name: string)
    requires '=' !in n && '=' !in name
    ensures StartsWith(n + "=" + v, name + "=") <==> n == name
  {
    var piece := n + "=" + v;
    if StartsWith(piece, name + "=") {
      assert piece[..|name| + 1] == name + "=";
      assert piece[|name|] == '=';
      assert |n| <= |name|;
      assert (name + "=")[|n|] == piece[|n|] == '=';
      assert |n| == |name|;
      assert piece[..|name|] == n;
    }
    if n == name {
      assert piece[..|name| + 1] == name + "=";
    }
  }

  /** `!lastPage || lastPage !== currentPage`: an absent or empty cookie is falsy. */
  function ShouldRecordPage(lastPage: Option<string>, currentPage: string): (r: bool)
    ensures !r <==> lastPage == Some(currentPage) && currentPage != ""
  {
    lastPage.None? || lastPage.value == "" || lastPage.value != currentPage
  }

  /** The `beforeunload` handler of `setupPageTracking`: the value written to the `lastPage`
      cookie, or `None` when the cookie is left as it is. */
  method RecordPage(cookie: string, currentPage: string) returns (written: Option<string>)
    ensures written.Some? ==> written.value == currentPage
    ensures written.None? <==> CookieValue(cookie, "lastPage") == Some(currentPage) && currentPage != ""
  {
    var lastPage := GetCookie(cookie, "lastPage");
    if ShouldRecordPage(lastPage, currentPage) {
      written := Some(currentPage);
    } else {
      written := None;
    }
  }
}
