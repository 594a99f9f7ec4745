/**
 * The image URL rewrite of generateQuiz: `link.replace(/am2_\d+\.html/i, src)`
 * replaces the first case-insensitive match of `am2_<digits>.html` in the
 * question page's URL by the image's relative `src`, and the proxied URL is
 * `proxyBase + "image?url=" + url`, with no encoding.
 */
module ImageUrl {
  import opened Wrappers
  import opened Strings

  /** `c` matches the pattern character `p` under the `i` flag (ASCII case folding; the pattern holds only ASCII). */
  predicate CiChar(c: char, p: char)
  {
    c == p || ('a' <= p <= 'z' && c as int == p as int - 32)
  }

  /** `am2_`, in either case, at `s[i..i + 4]`. */
  predicate HeadAt(s: string, i: nat)
    requires i + 4 <= |s|
  {
    CiChar(s[i], 'a') && CiChar(s[i + 1], 'm') && s[i + 2] == '2' && s[i + 3] == '_'
  }

  /** `.html`, in either case, at `s[i..i + 5]`. */
  predicate TailAt(s: string, i: nat)
    requires i + 5 <= |s|
  {
    s[i] == '.' && CiChar(s[i + 1], 'h') && CiChar(s[i + 2], 't') && CiChar(s[i + 3], 'm') && CiChar(s[i + 4], 'l')
  }

  /**
   * A word of the regular language of `/am2_\d+\.html/i` occupies
   * `s[k..k + m]`: the head, one digit or more, the tail.
   */
  predicate OccursAt(s: string, k: nat, m: nat)
  {
    && k + m <= |s| && m >= 10
    && HeadAt(s, k)
    && (forall j :: k + 4 <= j < k + m - 5 ==> IsDigit(s[j]))
    && TailAt(s, k + m - 5)
  }

  /** The length of the run of digits starting at `i`. */
  function DigitRun(s: string, i: nat): (n: nat)
    requires i <= |s|
    ensures i + n <= |s|
    decreases |s| - i
  {
    if i < |s| && IsDigit(s[i]) then 1 + DigitRun(s, i + 1) else 0
  }

  /** The run is all digits and stops at the first non-digit or at the end. */
  lemma {:induction false} DigitRunMaximal(s: string, i: nat)
    requires i <= |s|
    ensures forall j :: i <= j < i + DigitRun(s, i) ==> IsDigit(s[j])
    ensures i + DigitRun(s, i) < |s| ==> !IsDigit(s[i + DigitRun(s, i)])
    decreases |s| - i
  {
    if i < |s| && IsDigit(s[i]) {
      DigitRunMaximal(s, i + 1);
    }
  }

  /** The length of the match of the pattern starting at `i`, if one starts there. */
  function MatchAt(s: string, i: nat): Option<nat>
    requires i <= |s|
  {
    if i + 4 <= |s| && HeadAt(s, i) then
      var d := DigitRun(s, i + 4);
      if d >= 1 && i + 9 + d <= |s| && TailAt(s, i + 4 + d) then Some(9 + d) else None
    else None
  }

  /** A match found at `i` is an occurrence of the language. */
  lemma MatchAtSound(s: string, i: nat)
    requires i <= |s| && MatchAt(s, i).Some?
    ensures OccursAt(s, i, MatchAt(s, i).value)
  {
    DigitRunMaximal(s, i + 4);
  }

  /** Every occurrence starting at `i` is the match found there: the regex match is unique. */
  lemma MatchAtComplete(s: string, i: nat, n: nat)
    requires OccursAt(s, i, n)
    ensures MatchAt(s, i) == Some(n)
  {
    var d := DigitRun(s, i + 4);
    DigitRunMaximal(s, i + 4);
    assert d == n - 9;
  }

  /** The leftmost position at or after `i` where a match starts. */
  function FindFrom(s: string, i: nat): (r: Option<nat>)
    requires i <= |s|
    ensures r.Some? ==> i <= r.value <= |s| && MatchAt(s, r.value).Some?
    decreases |s| - i
  {
    if MatchAt(s, i).Some? then Some(i)
    else if i == |s| then None
    else FindFrom(s, i + 1)
  }

  /** The search finds the leftmost match, and finds none only when there is none. */
  lemma {:induction false} FindFromLeftmost(s: string, i: nat)
    requires i <= |s|
    ensures FindFrom(s, i).Some? ==> forall k :: i <= k < FindFrom(s, i).value ==> MatchAt(s, k).None?
    ensures FindFrom(s, i).None? ==> forall k :: i <= k <= |s| ==> MatchAt(s, k).None?
    decreases |s| - i
  {
    if MatchAt(s, i).None? && i < |s| {
      FindFromLeftmost(s, i + 1);
    }
  }

  /** `link.replace(/am2_\d+\.html/i, src)`, for a `src` without `$` patterns. */
  function Rewrite(link: string, src: string): string
  {
    match FindFrom(link, 0)
    case None => link
    case Some(i) => Splice(link, src, i, MatchAt(link, i).value)
  }

  /** `link` with `link[i..i + n]` replaced by `src`. */
  function Splice(link: string, src: string, i: nat, n: nat): string
    requires i + n <= |link|
  {
    link[..i] + src + link[i + n..]
  }

  /** The URL the Slack client is given for an image: the proxy endpoint with the URL appended unencoded. */
  function Proxied(proxyBase: string, url: string): string
  {
    proxyBase + "image?url=" + url
  }

  /** With no occurrence of the pattern anywhere in `link`, the rewrite gives `link` back unchanged. */
  lemma RewriteNoMatch(link: string, src: string)
    requires forall k: nat, m: nat :: !OccursAt(link, k, m)
    ensures Rewrite(link, src) == link
  {
    if FindFrom(link, 0).Some? {
      var i := FindFrom(link, 0).value;
      MatchAtSound(link, i);
      assert false;
    }
  }

  /** The leftmost occurrence of the pattern, and only it, is replaced by `src`. */
  lemma RewriteFirstMatch(link: string, src: string, i: nat, n: nat)
    requires OccursAt(link, i, n)
    requires forall k: nat, m: nat :: k < i ==> !OccursAt(link, k, m)
    ensures Rewrite(link, src) == link[..i] + src + link[i + n..]
  {
    MatchAtComplete(link, i, n);
    FindFromLeftmost(link, 0);
    assert FindFrom(link, 0) == Some(i) by {
      var r := FindFrom(link, 0);
      if r.value < i {
        MatchAtSound(link, r.value);
        assert false;
      }
    }
    RewriteAt(link, src, i, n);
  }

  lemma RewriteAt(link: string, src: string, i: nat, n: nat)
    requires i + n <= |link| && FindFrom(link, 0) == Some(i) && MatchAt(link, i) == Some(n)
    ensures Rewrite(link, src) == Splice(link, src, i, n)
  {
    assert MatchAt(link, i).value == n;
  }

  lemma ExampleNoEarlyMatch(s: string)
    requires s == "h/AM2_7.html"
    ensures forall k: nat, m: nat :: k < 2 ==> !OccursAt(s, k, m)
  {
  }

  lemma ExampleMatch(s: string)
    requires s == "h/AM2_7.html"
    ensures OccursAt(s, 2, 10)
  {
  }

  /** The site's URL shape: the page file name is replaced, whatever its case. */
  lemma RewriteExample(link: string, src: string)
    requires link == "h/AM2_7.html" && src == "x.png"
    ensures Rewrite(link, src) == "h/x.png"
  {
    ExampleNoEarlyMatch(link);
    ExampleMatch(link);
    RewriteFirstMatch(link, src, 2, 10);
    assert link[..2] + src + link[12..] == "h/x.png";
  }
}
