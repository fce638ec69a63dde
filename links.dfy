/**
 * The two link patterns of the exporter, each applied with `re.match` and
 * IGNORECASE:
 *
 *   outlook:     `.*(?P<link>\[\[outlook=[^,]+,\s*(?P<title>.*)\]\])`
 *   ThunderLink: `.*(?P<link>thunderlink://.*)`
 *
 * `.` stops at a newline (no DOTALL), so the greedy leading `.*` can only
 * skip part of the first line, and it backs off from the end of that line:
 * the link found is the one that starts last on the first line. A match is
 * described by positions into the text; each matcher searches the positions
 * in the order the backtracking regex engine tries them, and its contract
 * says that what it finds is a match and that no match comes earlier in that
 * order.
 */
module Links {
  import opened Wrappers
  import opened Text

  const OutlookTag: string := "[[outlook="
  const ThunderTag: string := "thunderlink://"

  /** `w` (lower-case) is written at position `p` of `s`, ignoring case. */
  predicate TagAt(s: string, p: nat, w: string) {
    p + |w| <= |s| && forall i :: 0 <= i < |w| ==> ToLower(s[p + i]) == w[i]
  }

  /**
   * The first `c` at or after `i`, or the end. With a newline it is how far
   * `.*` reaches from `i`; with a comma, how far `[^,]+` reaches.
   */
  function Find(s: string, c: char, i: nat): (e: nat)
    requires i <= |s|
    ensures i <= e <= |s|
    ensures forall j :: i <= j < e ==> s[j] != c
    ensures e == |s| || s[e] == c
    decreases |s| - i
  {
    if i == |s| || s[i] == c then i else Find(s, c, i + 1)
  }

  /** The first non-blank at or after `i`, or the end: how far `\s*` reaches from `i`. */
  function BlankEnd(s: string, i: nat): (e: nat)
    requires i <= |s|
    ensures i <= e <= |s|
    ensures forall j :: i <= j < e ==> IsSpace(s[j])
    ensures e == |s| || !IsSpace(s[e])
    decreases |s| - i
  {
    if i == |s| || !IsSpace(s[i]) then i else BlankEnd(s, i + 1)
  }

  // ---------------------------------------------------------------- ThunderLink

  /** The link may start at `p`: the leading `.*` reaches `p`, and the tag is there. */
  predicate ThunderAt(s: string, p: nat) {
    p <= Find(s, '\n', 0) && TagAt(s, p, ThunderTag)
  }

  /** The greatest start at or below `p` where the tag is written. */
  function LastThunderTag(s: string, p: nat): (r: Option<nat>)
    requires p <= |s|
    ensures r.Some? ==> r.value <= p && TagAt(s, r.value, ThunderTag)
    ensures r.Some? ==> forall j: nat :: r.value < j <= p ==> !TagAt(s, j, ThunderTag)
    ensures r.None? ==> forall j: nat :: j <= p ==> !TagAt(s, j, ThunderTag)
  {
    if TagAt(s, p, ThunderTag) then Some(p)
    else if p == 0 then None
    else LastThunderTag(s, p - 1)
  }

  /** `RE_THUNDERLINK.match(s).group('link')`, or None when the pattern does not match. */
  function MatchThunderLink(s: string): (r: Option<string>)
    ensures r.Some? ==> TagAt(r.value, 0, ThunderTag) && '\n' !in r.value
  {
    match LastThunderTag(s, Find(s, '\n', 0))
    case None => None
    case Some(p) => TagOnOneLine(s, p, ThunderTag); Some(s[p..Find(s, '\n', p)])
  }

  /** A tag without a newline in it lies on one line, and so does its copy at the front of the link. */
  lemma TagOnOneLine(s: string, p: nat, w: string)
    requires TagAt(s, p, w) && '\n' !in w
    ensures p + |w| <= Find(s, '\n', p)
    ensures TagAt(s[p..Find(s, '\n', p)], 0, w) && '\n' !in s[p..Find(s, '\n', p)]
  {
    forall j | p <= j < p + |w|
      ensures s[j] != '\n'
    {
      assert ToLower(s[p + (j - p)]) == w[j - p];
    }
    var line := s[p..Find(s, '\n', p)];
    assert forall i :: 0 <= i < |line| ==> line[i] == s[p + i];
  }

  // ---------------------------------------------------------------- outlook

  /**
   * `\[\[outlook=[^,]+,` at `p`: the tag, then at least one character before
   * the first comma after it. `[^,]+` may run past a newline.
   */
  predicate OutlookHead(s: string, p: nat) {
    && p <= Find(s, '\n', 0)
    && TagAt(s, p, OutlookTag)
    && p + |OutlookTag| < Find(s, ',', p + |OutlookTag|) < |s|
  }

  /** Where `\s*` may end after the comma that closes the head at `p`. */
  function GapStart(s: string, p: nat): nat
    requires OutlookHead(s, p)
  {
    Find(s, ',', p + |OutlookTag|) + 1
  }

  /** `(?P<title>.*)\]\]` with the title from `q` to `e`: no newline before `]]`. */
  predicate Close(s: string, q: nat, e: nat) {
    q <= e && e + 1 < |s| && s[e] == ']' && s[e + 1] == ']' && e + 1 < Find(s, '\n', q)
  }

  /**
   * A match of the outlook pattern: the link starts at `p`, the title runs
   * from `q` to `e`, and the link ends after the `]]` at `e`.
   */
  predicate OutlookAt(s: string, p: nat, q: nat, e: nat) {
    && OutlookHead(s, p)
    && GapStart(s, p) <= q <= BlankEnd(s, GapStart(s, p))
    && Close(s, q, e)
  }

  /** `(a, b, c)` comes before `(x, y, z)` in the order the engine tries them. */
  predicate Before(x: nat, y: nat, z: nat, a: nat, b: nat, c: nat) {
    x > a || (x == a && (y > b || (y == b && z > c)))
  }

  /** The greedy `.*` of the title tries the longest title first: the last `]]` before `hi`. */
  function LastClose(s: string, q: nat, hi: nat): (r: Option<nat>)
    requires q <= hi <= |s|
    ensures r.Some? ==> q <= r.value && r.value + 1 < hi && s[r.value] == ']' && s[r.value + 1] == ']'
    ensures r.Some? ==> forall e :: r.value < e && e + 1 < hi ==> !(s[e] == ']' && s[e + 1] == ']')
    ensures r.None? ==> forall e :: q <= e && e + 1 < hi ==> !(s[e] == ']' && s[e + 1] == ']')
    decreases hi
  {
    if hi < q + 2 then None
    else if s[hi - 2] == ']' && s[hi - 1] == ']' then Some(hi - 2)
    else LastClose(s, q, hi - 1)
  }

  /** The longest title that can follow a gap ending at `q`. */
  function TitleEnd(s: string, q: nat): (r: Option<nat>)
    requires q <= |s|
    ensures r.Some? ==> Close(s, q, r.value)
    ensures r.Some? ==> forall e: nat :: Close(s, q, e) ==> e <= r.value
    ensures r.None? ==> forall e: nat :: !Close(s, q, e)
  {
    LastClose(s, q, Find(s, '\n', q))
  }

  /** The greedy `\s*` tries the longest gap first, from `q` down to `lo`. */
  function LastGap(s: string, lo: nat, q: nat): (r: Option<(nat, nat)>)
    requires lo <= q <= |s|
    ensures r.Some? ==> lo <= r.value.0 <= q && Close(s, r.value.0, r.value.1)
    ensures r.Some? ==> forall e: nat :: Close(s, r.value.0, e) ==> e <= r.value.1
    ensures r.Some? ==> forall q': nat, e: nat :: r.value.0 < q' <= q && Close(s, q', e) ==> false
    ensures r.None? ==> forall q': nat, e: nat :: lo <= q' <= q && Close(s, q', e) ==> false
    decreases q
  {
    match TitleEnd(s, q)
    case Some(e) => Some((q, e))
    case None => if q == lo then None else LastGap(s, lo, q - 1)
  }

  /** The match with its link at `p` that the engine finds first, if any. */
  function OutlookFrom(s: string, p: nat): (r: Option<(nat, nat)>)
    ensures r.Some? ==> OutlookAt(s, p, r.value.0, r.value.1)
    ensures r.Some? ==> forall y: nat, z: nat :: OutlookAt(s, p, y, z) ==> !Before(p, y, z, p, r.value.0, r.value.1)
    ensures r.None? ==> forall y: nat, z: nat :: !OutlookAt(s, p, y, z)
  {
    if OutlookHead(s, p) then
      var g := GapStart(s, p);
      LastGap(s, g, BlankEnd(s, g))
    else None
  }

  /** The link start `p`, and below it, tried from the greatest down. */
  function LastOutlook(s: string, p: nat): (r: Option<(nat, nat, nat)>)
    ensures r.Some? ==> r.value.0 <= p && OutlookAt(s, r.value.0, r.value.1, r.value.2)
    ensures r.None? ==> forall x: nat, y: nat, z: nat :: x <= p && OutlookAt(s, x, y, z) ==> false
  {
    match OutlookFrom(s, p)
    case Some((q, e)) => Some((p, q, e))
    case None => if p == 0 then None else LastOutlook(s, p - 1)
  }

  /** Of the matches starting at or below `p`, none comes before the one the search stops at. */
  lemma {:induction false} LastOutlookFirst(s: string, p: nat)
    requires LastOutlook(s, p).Some?
    ensures var (a, b, c) := LastOutlook(s, p).value;
            forall x: nat, y: nat, z: nat :: x <= p && OutlookAt(s, x, y, z) ==> !Before(x, y, z, a, b, c)
  {
    hide OutlookAt;
    if OutlookFrom(s, p).None? {
      LastOutlookFirst(s, p - 1);
    }
  }

  /** The two groups of the outlook pattern. */
  datatype OutlookLink = OutlookLink(link: string, title: string)

  /** `RE_OUTLOOKLINK.match(s)`, its `link` and `title` groups, or None when the pattern does not match. */
  function MatchOutlookLink(s: string): (r: Option<OutlookLink>)
    ensures r.Some? ==> var n := |r.value.link|;
                        && TagAt(r.value.link, 0, OutlookTag) && n >= |r.value.title| + 2
                        && r.value.link[n - 2 - |r.value.title|..] == r.value.title + "]]"
                        && '\n' !in r.value.title
  {
    match LastOutlook(s, Find(s, '\n', 0))
    case None => None
    case Some((p, q, e)) => OutlookShape(s, p, q, e); Some(OutlookLink(s[p..e + 2], s[q..e]))
  }

  /** The link of a match opens with the tag and closes with the title and `]]`; the title holds no newline. */
  lemma OutlookShape(s: string, p: nat, q: nat, e: nat)
    requires OutlookAt(s, p, q, e)
    ensures var link := s[p..e + 2]; var title := s[q..e];
            && TagAt(link, 0, OutlookTag) && |link| >= |title| + 2
            && link[|link| - 2 - |title|..] == title + "]]"
            && '\n' !in title
  {
    var link := s[p..e + 2];
    var title := s[q..e];
    assert p + |OutlookTag| <= q;
    assert link[|link| - 2 - |title|..] == s[q..e + 2];
    assert s[e..e + 2] == "]]";
    assert s[q..e + 2] == s[q..e] + s[e..e + 2];
  }

  /** The ThunderLink found is the one that starts last on the first line, and it runs to the end of that line. */
  lemma ThunderLinkFound(s: string, p: nat)
    requires ThunderAt(s, p)
    requires forall j: nat :: p < j ==> !ThunderAt(s, j)
    ensures MatchThunderLink(s) == Some(s[p..Find(s, '\n', p)])
  {
    var r := LastThunderTag(s, Find(s, '\n', 0));
    assert r.Some?;
    assert ThunderAt(s, r.value);
  }

  /** Without the tag on the first line the ThunderLink pattern does not match. */
  lemma ThunderLinkAbsent(s: string)
    requires forall p: nat :: !ThunderAt(s, p)
    ensures MatchThunderLink(s) == None
  {
    var r := LastThunderTag(s, Find(s, '\n', 0));
    assert r.Some? ==> ThunderAt(s, r.value);
  }

  /** The positions of two matches neither of which comes before the other are the same. */
  lemma BeforeTotal(x: nat, y: nat, z: nat, a: nat, b: nat, c: nat)
    requires !Before(x, y, z, a, b, c) && !Before(a, b, c, x, y, z)
    ensures x == a && y == b && z == c
  {
  }

  /** The search from the end of the first line stops at the match that comes first in the engine's order. */
  lemma FirstOutlook(s: string, p: nat, q: nat, e: nat)
    requires OutlookAt(s, p, q, e)
    requires forall x: nat, y: nat, z: nat :: OutlookAt(s, x, y, z) ==> !Before(x, y, z, p, q, e)
    ensures LastOutlook(s, Find(s, '\n', 0)) == Some((p, q, e))
  {
    hide MatchOutlookLink;
    var r := LastOutlook(s, Find(s, '\n', 0));
    assert p <= Find(s, '\n', 0);
    assert r.Some?;
    LastOutlookFirst(s, Find(s, '\n', 0));
    var (a, b, c) := r.value;
    BeforeTotal(p, q, e, a, b, c);
  }

  /** The outlook link found is the match that comes first in the engine's order. */
  lemma OutlookLinkFound(s: string, p: nat, q: nat, e: nat)
    requires OutlookAt(s, p, q, e)
    requires forall x: nat, y: nat, z: nat :: OutlookAt(s, x, y, z) ==> !Before(x, y, z, p, q, e)
    ensures MatchOutlookLink(s) == Some(OutlookLink(s[p..e + 2], s[q..e]))
  {
    hide OutlookAt;
    FirstOutlook(s, p, q, e);
  }

  /** Without any match the outlook pattern does not match. */
  lemma OutlookLinkAbsent(s: string)
    requires forall x: nat, y: nat, z: nat :: !OutlookAt(s, x, y, z)
    ensures MatchOutlookLink(s) == None
  {
  }
}
