/**
 * Character classes and the building blocks of Python's `re` engine that the
 * recurrence and link patterns use, restricted to ASCII: `\s`, `\d`, `\w`,
 * IGNORECASE comparison, greedy repetition of a character class and an
 * alternation of literal words.
 */
module Text {
  import opened Wrappers

  /** `\s`: on ASCII, the characters Python's str.isspace accepts. */
  predicate IsSpace(c: char) {
    c == ' ' || ('\t' <= c <= '\r') || ('\U{1C}' <= c <= '\U{1F}')
  }

  /** `\d` on ASCII. */
  predicate IsDigit(c: char) {
    '0' <= c <= '9'
  }

  predicate IsLowerLetter(c: char) {
    'a' <= c <= 'z'
  }

  predicate IsLetter(c: char) {
    IsLowerLetter(c) || 'A' <= c <= 'Z'
  }

  /** `\w` on ASCII. */
  predicate IsWordChar(c: char) {
    IsLetter(c) || IsDigit(c) || c == '_'
  }

  function ToLower(c: char): char {
    if 'A' <= c <= 'Z' then (c as int + 32) as char else c
  }

  function ToUpper(c: char): char {
    if 'a' <= c <= 'z' then (c as int - 32) as char else c
  }

  /** The character classes the patterns repeat: `\s`, `\d` and `\w`. */
  datatype CharClass = Space | Digit | Word

  predicate InClass(k: CharClass, c: char) {
    match k
    case Space => IsSpace(c)
    case Digit => IsDigit(c)
    case Word => IsWordChar(c)
  }

  /** Every character of `s` is in class `k`. */
  predicate All(k: CharClass, s: string) {
    forall i :: 0 <= i < |s| ==> InClass(k, s[i])
  }

  /** str.lower() on ASCII. */
  function Lower(s: string): (r: string)
    ensures |r| == |s|
    ensures forall i :: 0 <= i < |s| ==> r[i] == ToLower(s[i])
  {
    seq(|s|, i requires 0 <= i < |s| => ToLower(s[i]))
  }

  /** `s` holds no lower-case letter. */
  predicate NoLower(s: string) {
    forall i :: 0 <= i < |s| ==> !IsLowerLetter(s[i])
  }

  /** str.upper() on ASCII: the result holds no lower-case letter. */
  function Upper(s: string): (r: string)
    ensures |r| == |s|
    ensures forall i :: 0 <= i < |s| ==> r[i] == ToUpper(s[i])
    ensures NoLower(r)
  {
    seq(|s|, i requires 0 <= i < |s| => ToUpper(s[i]))
  }

  lemma UpperConcat(a: string, b: string)
    ensures Upper(a + b) == Upper(a) + Upper(b)
  {
    assert forall i :: 0 <= i < |a + b| ==> Upper(a + b)[i] == (Upper(a) + Upper(b))[i];
  }

  lemma NoLowerConcat(a: string, b: string)
    requires NoLower(a) && NoLower(b)
    ensures NoLower(a + b)
  {
    assert forall i :: 0 <= i < |a + b| ==> (a + b)[i] == if i < |a| then a[i] else b[i - |a|];
  }

  /** upper() leaves a string without lower-case letters (digits, upper-case text) alone. */
  lemma UpperFixed(s: string)
    requires NoLower(s)
    ensures Upper(s) == s
  {
  }

  /** upper() of a string only depends on its lower-case form. */
  lemma UpperOfLower(s: string, w: string)
    requires Lower(s) == w
    ensures Upper(s) == Upper(w)
  {
    assert forall i :: 0 <= i < |s| ==> ToUpper(s[i]) == ToUpper(ToLower(s[i]));
  }

  /**
   * Greedy repetition `[class]*` at the front of `s`: the length of the
   * longest prefix whose characters all belong to the class.
   */
  function Span(k: CharClass, s: string): (n: nat)
    ensures n <= |s|
    ensures forall i :: 0 <= i < n ==> InClass(k, s[i])
    ensures n == |s| || !InClass(k, s[n])
  {
    if s == [] || !InClass(k, s[0]) then 0 else 1 + Span(k, s[1..])
  }

  /** `[class]*` at the front of `s`, greedily: the run it matches and what follows. */
  function TakeRun(k: CharClass, s: string): (r: (string, string))
    ensures r.0 + r.1 == s && All(k, r.0)
    ensures r.1 == [] || !InClass(k, r.1[0])
  {
    var n := Span(k, s);
    assert s[..n] + s[n..] == s;
    (s[..n], s[n..])
  }

  /** The greedy run is exactly the class-run `a` when what follows `a` is outside the class. */
  lemma SpanOfRun(k: CharClass, a: string, b: string)
    requires All(k, a)
    requires b == [] || !InClass(k, b[0])
    ensures Span(k, a + b) == |a|
  {
    assert forall i :: 0 <= i < |a| ==> (a + b)[i] == a[i];
    assert b != [] ==> (a + b)[|a|] == b[0];
  }

  /** Splitting `a + b` after a maximal run `a`: where the run ends and the two parts. */
  lemma RunSplit(k: CharClass, a: string, b: string, t: string)
    requires All(k, a) && (b == [] || !InClass(k, b[0]))
    requires t == a + b
    ensures Span(k, t) == |a| && t[..|a|] == a && t[|a|..] == b
  {
    SpanOfRun(k, a, b);
  }

  /** A maximal run is taken in full, whatever follows it. */
  lemma TakeRunExact(k: CharClass, a: string, b: string)
    requires All(k, a) && (b == [] || !InClass(k, b[0]))
    ensures TakeRun(k, a + b) == (a, b)
  {
    RunSplit(k, a, b, a + b);
  }

  /** A prefix of `t` glued after `a`, then the rest of `t`, is `a + t`. */
  lemma JoinRest(a: string, t: string, i: nat)
    requires i <= |t|
    ensures a + t[..i] + t[i..] == a + t
  {
    assert t[..i] + t[i..] == t;
  }

  /** `w` is a prefix of `s`. */
  predicate IsPrefix(w: string, s: string) {
    |w| <= |s| && s[..|w|] == w
  }

  /** Words that differ at a place both reach are not prefixes of one another. */
  lemma DifferAt(u: string, v: string, k: nat)
    requires k < |u| && k < |v| && u[k] != v[k]
    ensures !IsPrefix(u, v) && !IsPrefix(v, u)
  {
    assert |u| <= |v| ==> v[..|u|][k] == v[k];
    assert |v| <= |u| ==> u[..|v|][k] == u[k];
  }

  /** Under IGNORECASE, the lower-case literal `w` matches at the front of `s`. */
  predicate StartsWithWord(s: string, w: string) {
    |w| <= |s| && forall i :: 0 <= i < |w| ==> ToLower(s[i]) == w[i]
  }

  /** A table of alternatives: non-empty words of lower-case letters and punctuation. */
  predicate Words(words: seq<string>) {
    forall i :: 0 <= i < |words| ==> words[i] != [] && IsLowerLetter(words[i][0])
  }

  /** No alternative is a prefix of another, so at most one can match at a given place. */
  predicate PrefixFree(words: seq<string>) {
    forall i, j :: 0 <= i < |words| && 0 <= j < |words| && i != j ==> !IsPrefix(words[i], words[j])
  }

  /**
   * The alternation `w0|w1|...` under IGNORECASE, tried in order: the text
   * matched (as written in `s`) and what follows it.
   */
  function MatchWord(words: seq<string>, s: string): (r: Option<(string, string)>)
    ensures r.Some? ==> r.value.0 + r.value.1 == s && Lower(r.value.0) in words
    ensures r.Some? ==> StartsWithWord(s, Lower(r.value.0))
    ensures r.None? ==> forall w :: w in words ==> !StartsWithWord(s, w)
  {
    if words == [] then None
    else if StartsWithWord(s, words[0]) then
      assert s[..|words[0]|] + s[|words[0]|..] == s;
      assert Lower(s[..|words[0]|]) == words[0];
      Some((s[..|words[0]|], s[|words[0]|..]))
    else MatchWord(words[1..], s)
  }

  /** Text that matches a table entry begins with a letter. */
  lemma WordStartsWithLetter(words: seq<string>, x: string)
    requires Words(words)
    requires Lower(x) in words
    ensures x != [] && IsLetter(x[0])
  {
    assert Lower(x)[0] == ToLower(x[0]);
  }

  /**
   * An alternation does not match text that begins with `x` when no
   * alternative is a prefix of `x` (lower-cased) or has it as a prefix.
   */
  lemma MatchWordMiss(words: seq<string>, x: string, rest: string)
    requires forall w :: w in words ==> !IsPrefix(w, Lower(x)) && !IsPrefix(Lower(x), w)
    ensures MatchWord(words, x + rest) == None
  {
    var s := x + rest;
    forall w | w in words
      ensures !StartsWithWord(s, w)
    {
      if |w| <= |x| {
        assert s[..|w|] == x[..|w|];
        assert Lower(x)[..|w|] == Lower(x[..|w|]);
      } else {
        assert |w| <= |s| ==> s[..|w|][..|x|] == x;
        assert |w| <= |s| ==> Lower(s[..|w|])[..|x|] == Lower(x);
      }
    }
  }

  /** Nothing in the table matches where a character that starts no alternative stands. */
  lemma MatchWordNotLetter(words: seq<string>, s: string)
    requires Words(words)
    requires s == [] || !IsLetter(s[0])
    ensures MatchWord(words, s) == None
  {
  }

  /** When the words are prefix-free, an alternation matches exactly the text of the alternative that is there. */
  lemma {:induction false} MatchWordExact(words: seq<string>, x: string, rest: string)
    requires PrefixFree(words)
    requires Lower(x) in words
    ensures MatchWord(words, x + rest) == Some((x, rest))
  {
    var s := x + rest;
    assert s[..|x|] == x;
    if words[0] == Lower(x) {
      assert s[|x|..] == rest;
    } else {
      var j :| 0 <= j < |words| && words[j] == Lower(x);
      assert j != 0;
      assert PrefixFree(words[1..]) by {
        forall i, k | 0 <= i < |words[1..]| && 0 <= k < |words[1..]| && i != k
          ensures !IsPrefix(words[1..][i], words[1..][k])
        {
          assert words[1..][i] == words[i + 1] && words[1..][k] == words[k + 1];
        }
      }
      assert words[1..][j - 1] == Lower(x);
      MatchWordExact(words[1..], x, rest);
    }
  }

  /** Words of one length that are pairwise different are prefix-free. */
  lemma SameLengthPrefixFree(words: seq<string>, n: nat)
    requires forall i :: 0 <= i < |words| ==> |words[i]| == n
    requires forall i, j :: 0 <= i < j < |words| ==> words[i] != words[j]
    ensures PrefixFree(words)
  {
    forall i, j | 0 <= i < |words| && 0 <= j < |words| && i != j
      ensures !IsPrefix(words[i], words[j])
    {
      if i < j {
        assert words[i] != words[j];
      } else {
        assert words[j] != words[i];
      }
    }
  }

  /** Non-empty words with pairwise different first letters are prefix-free. */
  lemma DistinctInitialsPrefixFree(words: seq<string>)
    requires forall i :: 0 <= i < |words| ==> words[i] != []
    requires forall i, j :: 0 <= i < j < |words| ==> words[i][0] != words[j][0]
    ensures PrefixFree(words)
  {
    forall i, j | 0 <= i < |words| && 0 <= j < |words| && i != j
      ensures !IsPrefix(words[i], words[j])
    {
      assert words[i][0] != words[j][0] by {
        if i > j {
          assert words[j][0] != words[i][0];
        }
      }
      assert |words[i]| <= |words[j]| ==> words[j][..|words[i]|][0] == words[j][0];
    }
  }

  /** str(n) for a natural number. */
  function DecimalString(n: nat): (r: string)
    ensures r != [] && All(Digit, r)
  {
    if n < 10 then [('0' as int + n) as char]
    else DecimalString(n / 10) + [('0' as int + n % 10) as char]
  }
}
