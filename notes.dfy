/**
 * The note block of a task row: notes keyed by their posted time (a later
 * note with the same time replaces the earlier one), written in ascending
 * time order, each as a header line and the cleaned-up note text followed by
 * a `---` separator, all lines ending in a carriage return.
 *
 * Posted times are the parsed, local-time timestamps, as ordered integer
 * keys; the header text of a key is a parameter (`strftime` is not modelled).
 */
module Notes {
  import opened Text

  /** A note of a task: its text and its posted time. */
  datatype Note = Note(content: string, posted: int)

  /** `content.replace('\n', '\r')`. */
  function CrLines(s: string): (r: string)
    ensures |r| == |s|
    ensures forall i :: 0 <= i < |s| ==> r[i] == (if s[i] == '\n' then '\r' else s[i])
    ensures '\n' !in r
  {
    seq(|s|, i requires 0 <= i < |s| => if s[i] == '\n' then '\r' else s[i])
  }

  predicate AllCr(s: string) {
    forall i :: 0 <= i < |s| ==> s[i] == '\r'
  }

  /** Where the run of carriage returns that ends `t[..j]` starts, not below `i`. */
  function CrRunStart(t: string, i: nat, j: nat): (k: nat)
    requires i <= j <= |t|
    ensures i <= k <= j
    ensures forall x :: k <= x < j ==> t[x] == '\r'
    ensures k == i || t[k - 1] != '\r'
  {
    if j == i || t[j - 1] != '\r' then j else CrRunStart(t, i, j - 1)
  }

  /**
   * `^[\s\r]*(.*?)\r*$` over the whole text (DOTALL, no newline left in it):
   * the leading blanks, the group, and the trailing carriage returns. The
   * greedy blank run takes every leading blank, and the lazy group stops at
   * the run of carriage returns that ends the text.
   */
  function SplitNote(t: string): (r: (string, string, string))
    ensures r.0 + r.1 + r.2 == t
    ensures All(Space, r.0) && AllCr(r.2)
    ensures r.1 == [] ==> r.2 == []
    ensures r.1 != [] ==> !IsSpace(r.1[0]) && r.1[|r.1| - 1] != '\r'
  {
    var (lead, u) := TakeRun(Space, t);
    var j := CrRunStart(u, 0, |u|);
    JoinRest(lead, u, j);
    (lead, u[..j], u[j..])
  }

  /** The carriage-return run found from `j` down is the one that starts at `n`. */
  lemma {:induction false} CrRunExact(u: string, n: nat, j: nat)
    requires n <= j <= |u|
    requires forall x :: n <= x < j ==> u[x] == '\r'
    requires n == 0 || u[n - 1] != '\r'
    ensures CrRunStart(u, 0, j) == n
    decreases j - n
  {
    if j > n {
      CrRunExact(u, n, j - 1);
    }
  }

  /**
   * The split is the only one with its shape: blanks, then a text that
   * neither starts with a blank nor ends in a carriage return, then
   * carriage returns (an all-blank text is all lead).
   */
  lemma SplitNoteUnique(t: string, a: string, g: string, b: string)
    requires t == a + g + b
    requires All(Space, a) && AllCr(b)
    requires g == [] ==> b == []
    requires g != [] ==> !IsSpace(g[0]) && g[|g| - 1] != '\r'
    ensures SplitNote(t) == (a, g, b)
  {
    var u := g + b;
    assert t == a + u;
    TakeRunExact(Space, a, u);
    CrRunExact(u, |g|, |u|);
    assert u[..|g|] == g && u[|g|..] == b;
  }

  /** The separator written after each note text. */
  const Terminator: string := "\r---\r"

  /**
   * The cleaned-up text of a note: newlines become carriage returns, leading
   * blanks and trailing carriage returns go, and the separator is appended.
   */
  function NoteBody(content: string): (r: string)
    ensures '\n' !in r
    ensures |r| >= |Terminator| && r[|r| - |Terminator|..] == Terminator
    ensures var g := r[..|r| - |Terminator|];
      g == [] || (!IsSpace(g[0]) && g[|g| - 1] != '\r')
  {
    var g := SplitNote(CrLines(content)).1;
    assert '\n' !in g by {
      assert forall i :: 0 <= i < |g| ==> g[i] in CrLines(content);
    }
    assert (g + Terminator)[|g|..] == Terminator;
    assert (g + Terminator)[..|g|] == g;
    g + Terminator
  }

  /**
   * The body is the text between the leading blanks and the trailing carriage
   * returns of the note with its newlines turned into carriage returns.
   */
  lemma NoteBodyOf(content: string, a: string, g: string, b: string)
    requires CrLines(content) == a + g + b
    requires All(Space, a) && AllCr(b)
    requires g == [] ==> b == []
    requires g != [] ==> !IsSpace(g[0]) && g[|g| - 1] != '\r'
    ensures NoteBody(content) == g + Terminator
  {
    SplitNoteUnique(CrLines(content), a, g, b);
  }

  /** The notes keyed by posted time, as a dict filled in list order: a later note overwrites an earlier one. */
  function ByDate(notes: seq<Note>): (m: map<int, Note>)
    ensures m.Keys == set n | n in notes :: n.posted
    ensures forall k :: k in m ==> m[k] in notes && m[k].posted == k
  {
    if notes == [] then map[]
    else
      var last := notes[|notes| - 1];
      assert notes == notes[..|notes| - 1] + [last];
      ByDate(notes[..|notes| - 1])[last.posted := last]
  }

  /** A note whose time no later note shares is the one kept for that time. */
  lemma {:induction false} ByDateLastWins(notes: seq<Note>, i: nat)
    requires i < |notes|
    requires forall j :: i < j < |notes| ==> notes[j].posted != notes[i].posted
    ensures ByDate(notes)[notes[i].posted] == notes[i]
    decreases |notes|
  {
    var init := notes[..|notes| - 1];
    if i < |notes| - 1 {
      ByDateLastWins(init, i);
    }
  }

  predicate Increasing(ks: seq<int>) {
    forall i, j :: 0 <= i < j < |ks| ==> ks[i] < ks[j]
  }

  /** The posted times of the notes, in list order. */
  function Posted(notes: seq<Note>): (ps: seq<int>)
    ensures |ps| == |notes|
    ensures forall i :: 0 <= i < |notes| ==> ps[i] == notes[i].posted
  {
    if notes == [] then [] else Posted(notes[..|notes| - 1]) + [notes[|notes| - 1].posted]
  }

  /** The least of a non-empty list of keys. */
  function Least(xs: seq<int>): (x: int)
    requires xs != []
    ensures x in xs && forall y :: y in xs ==> x <= y
  {
    if |xs| == 1 then xs[0]
    else
      var b := Least(xs[1..]);
      assert forall y :: y in xs ==> y == xs[0] || y in xs[1..];
      if xs[0] < b then xs[0] else b
  }

  /** The keys other than `x`, in the order given. */
  function Without(xs: seq<int>, x: int): (r: seq<int>)
    ensures |r| <= |xs|
    ensures x in xs ==> |r| < |xs|
    ensures forall y :: y in r <==> y in xs && y != x
  {
    if xs == [] then []
    else
      assert forall y :: y in xs ==> y == xs[0] || y in xs[1..];
      (if xs[0] == x then [] else [xs[0]]) + Without(xs[1..], x)
  }

  /** The distinct keys in ascending order, as `sorted(notesByDate.keys())` lists them. */
  function SortedKeys(xs: seq<int>): (ks: seq<int>)
    ensures Increasing(ks)
    ensures forall k :: k in ks <==> k in xs
    decreases |xs|
  {
    if xs == [] then []
    else
      var x := Least(xs);
      var rest := SortedKeys(Without(xs, x));
      assert forall k :: k in rest ==> x < k;
      [x] + rest
  }

  /** Two ascending sequences of the same keys are the same sequence. */
  lemma {:induction false} IncreasingUnique(a: seq<int>, b: seq<int>)
    requires Increasing(a) && Increasing(b)
    requires forall k :: k in a <==> k in b
    ensures a == b
    decreases |a|
  {
    if a != [] { assert a[0] in a; }
    if b != [] { assert b[0] in b; }
    if a != [] && b != [] {
      assert a[0] in b && b[0] in a;
      assert a[0] == b[0];
      forall k
        ensures k in a[1..] <==> k in b[1..]
      {
        assert k in a[1..] <==> k in a && k != a[0];
        assert k in b[1..] <==> k in b && k != b[0];
      }
      IncreasingUnique(a[1..], b[1..]);
      assert a == [a[0]] + a[1..] && b == [b[0]] + b[1..];
    }
  }

  /** The cleaned-up text of each kept note, by time. */
  function Bodies(m: map<int, Note>): (bodies: map<int, string>)
    ensures bodies.Keys == m.Keys
    ensures forall k :: k in bodies ==> bodies[k] == NoteBody(m[k].content)
  {
    map k | k in m :: NoteBody(m[k].content)
  }

  /** What the block gets for one time: the header line, then the note text. */
  function Entry(k: int, body: string, header: int -> string): string {
    header(k) + "\r" + body
  }

  /** The block for the times in the order given, one entry per time. */
  function Block(ks: seq<int>, bodies: map<int, string>, header: int -> string): string
    requires forall k :: k in ks ==> k in bodies
  {
    if ks == [] then ""
    else
      var k := ks[|ks| - 1];
      Block(ks[..|ks| - 1], bodies, header) + Entry(k, bodies[k], header)
  }

  /** One more time: the block gets that time's entry. */
  lemma BlockStep(ks: seq<int>, j: nat, bodies: map<int, string>, header: int -> string)
    requires j < |ks|
    requires forall k :: k in ks ==> k in bodies
    ensures Block(ks[..j + 1], bodies, header) == Block(ks[..j], bodies, header) + Entry(ks[j], bodies[ks[j]], header)
  {
    assert ks[..j + 1][..j] == ks[..j];
  }

  /** The entries of consecutive time lists follow one another. */
  lemma {:induction false} BlockConcat(ks1: seq<int>, ks2: seq<int>, bodies: map<int, string>, header: int -> string)
    requires forall k :: k in ks1 ==> k in bodies
    requires forall k :: k in ks2 ==> k in bodies
    ensures Block(ks1 + ks2, bodies, header) == Block(ks1, bodies, header) + Block(ks2, bodies, header)
    decreases |ks2|
  {
    hide Entry;
    if ks2 != [] {
      var ks := ks1 + ks2;
      var init := ks2[..|ks2| - 1];
      var k := ks2[|ks2| - 1];
      assert ks[..|ks| - 1] == ks1 + init && ks[|ks| - 1] == k;
      BlockConcat(ks1, init, bodies, header);
      var b1, b2, e := Block(ks1, bodies, header), Block(init, bodies, header), Entry(k, bodies[k], header);
      assert b1 + b2 + e == b1 + (b2 + e);
    } else {
      assert ks1 + ks2 == ks1;
    }
  }

  /** A block is empty exactly when it has no time: every entry holds a carriage return. */
  lemma BlockEmpty(ks: seq<int>, bodies: map<int, string>, header: int -> string)
    requires forall k :: k in ks ==> k in bodies
    ensures Block(ks, bodies, header) == "" <==> ks == []
  {
    if ks != [] {
      var k := ks[|ks| - 1];
      assert |Entry(k, bodies[k], header)| > 0;
    }
  }

  /** The note block of a task's remaining notes. */
  function NoteBlock(notes: seq<Note>, header: int -> string): string {
    Block(SortedKeys(Posted(notes)), Bodies(ByDate(notes)), header)
  }

  /** The block is empty exactly when no note is left for it. */
  lemma NoteBlockEmpty(notes: seq<Note>, header: int -> string)
    ensures NoteBlock(notes, header) == "" <==> notes == []
  {
    var ks := SortedKeys(Posted(notes));
    BlockEmpty(ks, Bodies(ByDate(notes)), header);
    if notes != [] {
      assert Posted(notes)[0] in ks;
    }
  }

  /**
   * Any ascending list of the notes' distinct times gives the block: one
   * entry per time, earliest first.
   */
  lemma NoteBlockAscending(notes: seq<Note>, header: int -> string, ks: seq<int>)
    requires Increasing(ks)
    requires forall k :: k in ks <==> k in Posted(notes)
    ensures forall k :: k in ks ==> k in Bodies(ByDate(notes))
    ensures NoteBlock(notes, header) == Block(ks, Bodies(ByDate(notes)), header)
  {
    IncreasingUnique(ks, SortedKeys(Posted(notes)));
  }
}
