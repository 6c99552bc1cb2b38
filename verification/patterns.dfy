/**
 The fixed regular-expression shapes that the voice parsers hand to Python's
 `re.search`, and the substring tests (`"light" in command`) they use beside
 them. Every pattern in the program is a concatenation of three kinds of piece:
 a literal word, `\s+` (one or more whitespace characters) and `.*` (any run of
 characters other than a newline). A pattern is modelled as a sequence of such
 pieces, with a declarative meaning (`Derives`, `Found`) and an executable
 backtracking search (`MatchAt`, `Search`) proved to agree with it.
 */
module Patterns {

  /** Python's `\s` on a `str` pattern: the characters for which `str.isspace()` holds. */
  predicate IsSpace(c: char) {
    || ('\t' <= c <= '\r')
    || ('\U{1c}' <= c <= ' ')
    || c == '\U{85}' || c == '\U{a0}' || c == '\U{1680}'
    || ('\U{2000}' <= c <= '\U{200a}')
    || c == '\U{2028}' || c == '\U{2029}' || c == '\U{202f}' || c == '\U{205f}'
    || c == '\U{3000}'
  }

  predicate AllSpace(t: string) {
    forall k :: 0 <= k < |t| ==> IsSpace(t[k])
  }

  /** What `.` may match: anything but a newline (no DOTALL flag anywhere). */
  predicate NoNewline(t: string) {
    forall k :: 0 <= k < |t| ==> t[k] != '\n'
  }

  datatype Piece =
    | Lit(word: string)  // the word itself
    | Spaces             // \s+
    | Line               // .*

  type Pattern = seq<Piece>

  /** `p` matches the whole of `t`. */
  ghost predicate Derives(p: Pattern, t: string)
    decreases |p|
  {
    if p == [] then t == []
    else match p[0]
      case Lit(w) => |w| <= |t| && t[..|w|] == w && Derives(p[1..], t[|w|..])
      case Spaces => exists k :: 1 <= k <= |t| && AllSpace(t[..k]) && Derives(p[1..], t[k..])
      case Line => exists k :: 0 <= k <= |t| && NoNewline(t[..k]) && Derives(p[1..], t[k..])
  }

  /** `re.search(p, s)` succeeds: `p` matches some contiguous slice of `s`. */
  ghost predicate Found(p: Pattern, s: string) {
    exists i, j :: 0 <= i <= j <= |s| && Derives(p, s[i..j])
  }

  /** `w` occurs in `s` as a substring (Python's `w in s`). */
  ghost predicate Occurs(w: string, s: string) {
    exists i: nat :: OccursAt(w, s, i)
  }

  ghost predicate OccursAt(w: string, s: string, i: nat) {
    i + |w| <= |s| && s[i..i + |w|] == w
  }

  /** `w` occurs at position `i` of `s`, compared character by character from `w[k]` on. */
  function WordAt(w: string, s: string, i: nat, k: nat): (r: bool)
    decreases |w| - k
  {
    if k >= |w| then true
    else i + k < |s| && s[i + k] == w[k] && WordAt(w, s, i, k + 1)
  }

  /** Backtracking match of the pieces `p[pi..]` against some prefix of `s[i..]`. */
  function MatchAt(p: Pattern, pi: nat, s: string, i: nat): (r: bool)
    requires i <= |s|
    decreases |s| - i, |p| - pi
  {
    if pi >= |p| then true
    else match p[pi]
      case Lit(w) => i + |w| <= |s| && WordAt(w, s, i, 0) && MatchAt(p, pi + 1, s, i + |w|)
      case Spaces => i < |s| && IsSpace(s[i]) && (MatchAt(p, pi + 1, s, i + 1) || MatchAt(p, pi, s, i + 1))
      case Line => MatchAt(p, pi + 1, s, i) || (i < |s| && s[i] != '\n' && MatchAt(p, pi, s, i + 1))
  }

  /** Tries every start position from `i` on, as `re.search` does. */
  function SearchFrom(p: Pattern, s: string, i: nat): (r: bool)
    requires i <= |s|
    decreases |s| - i
  {
    MatchAt(p, 0, s, i) || (i < |s| && SearchFrom(p, s, i + 1))
  }

  /** Executable `re.search(p, s) is not None`. */
  function Search(p: Pattern, s: string): (r: bool)
    ensures r <==> Found(p, s)
  {
    SearchFromCorrect(p, s, 0);
    assert forall a, j :: 0 <= a <= j <= |s| ==> s[a..j] == s[a..j];
    SearchFrom(p, s, 0)
  }

  /** Executable `w in s`. */
  function Contains(s: string, w: string): (r: bool)
    ensures r <==> Occurs(w, s)
  {
    FoundWordIffOccurs(w, s);
    Search([Lit(w)], s)
  }

  /** Python's `any(re.search(p, s) for p in ps[k:])`. */
  function SearchAny(ps: seq<Pattern>, s: string, k: nat): (r: bool)
    requires k <= |ps|
    ensures r <==> exists m :: k <= m < |ps| && Found(ps[m], s)
    decreases |ps| - k
  {
    k < |ps| && (Search(ps[k], s) || SearchAny(ps, s, k + 1))
  }

  // ---------------------------------------------------------------------------
  // The executable search agrees with the declarative meaning.

  lemma {:induction false} WordAtCorrect(w: string, s: string, i: nat, k: nat)
    requires i + |w| <= |s|
    requires k <= |w|
    ensures WordAt(w, s, i, k) <==> forall m :: k <= m < |w| ==> s[i + m] == w[m]
    decreases |w| - k
  {
    if k < |w| {
      WordAtCorrect(w, s, i, k + 1);
    }
  }

  lemma WordAtIffSlice(w: string, s: string, i: nat)
    requires i + |w| <= |s|
    ensures WordAt(w, s, i, 0) <==> s[i..i + |w|] == w
  {
    WordAtCorrect(w, s, i, 0);
    if WordAt(w, s, i, 0) {
      assert forall m :: 0 <= m < |w| ==> s[i..i + |w|][m] == w[m];
    } else {
      var m :| 0 <= m < |w| && s[i + m] != w[m];
      assert s[i..i + |w|][m] != w[m];
    }
  }

  ghost predicate MatchesPrefix(p: Pattern, pi: nat, s: string, i: nat)
    requires pi <= |p| && i <= |s|
  {
    exists j :: i <= j <= |s| && Derives(p[pi..], s[i..j])
  }

  lemma {:induction false} MatchAtCorrect(p: Pattern, pi: nat, s: string, i: nat)
    requires pi <= |p| && i <= |s|
    ensures MatchAt(p, pi, s, i) <==> MatchesPrefix(p, pi, s, i)
    decreases |s| - i, |p| - pi, 1
  {
    if pi == |p| {
      assert p[pi..] == [] && s[i..i] == [];
      assert Derives(p[pi..], s[i..i]);
    } else {
      match p[pi]
      case Lit(_) => LitSound(p, pi, s, i); LitComplete(p, pi, s, i);
      case Spaces => SpacesSound(p, pi, s, i); SpacesComplete(p, pi, s, i);
      case Line => LineSound(p, pi, s, i); LineComplete(p, pi, s, i);
    }
  }

  lemma {:induction false} LitSound(p: Pattern, pi: nat, s: string, i: nat)
    requires pi < |p| && p[pi].Lit? && i <= |s|
    ensures MatchAt(p, pi, s, i) ==> MatchesPrefix(p, pi, s, i)
    decreases |s| - i, |p| - pi, 0
  {
    var w := p[pi].word;
    var q := p[pi..];
    if MatchAt(p, pi, s, i) {
      assert q[0] == p[pi] && q[1..] == p[pi + 1..];
      WordAtIffSlice(w, s, i);
      MatchAtCorrect(p, pi + 1, s, i + |w|);
      var j :| i + |w| <= j <= |s| && Derives(q[1..], s[i + |w|..j]);
      var t := s[i..j];
      assert t[..|w|] == s[i..i + |w|] && t[|w|..] == s[i + |w|..j];
      assert Derives(q, t);
    }
  }

  lemma {:induction false} LitComplete(p: Pattern, pi: nat, s: string, i: nat)
    requires pi < |p| && p[pi].Lit? && i <= |s|
    ensures MatchesPrefix(p, pi, s, i) ==> MatchAt(p, pi, s, i)
    decreases |s| - i, |p| - pi, 0
  {
    var w := p[pi].word;
    var q := p[pi..];
    if MatchesPrefix(p, pi, s, i) {
      assert q[0] == p[pi] && q[1..] == p[pi + 1..];
      var j :| i <= j <= |s| && Derives(q, s[i..j]);
      var t := s[i..j];
      assert t[..|w|] == s[i..i + |w|] && t[|w|..] == s[i + |w|..j];
      WordAtIffSlice(w, s, i);
      MatchAtCorrect(p, pi + 1, s, i + |w|);
    }
  }

  /** Slicing a text whose tail is `u`: its first `k + 1` characters are its first
      character followed by `u[..k]`, and what follows them is `u[k..]`. */
  lemma ConsRun(t: string, u: string, k: nat)
    requires 1 <= |t| && t[1..] == u && k <= |u|
    ensures t[..k + 1] == [t[0]] + u[..k]
    ensures t[k + 1..] == u[k..]
  {
  }

  lemma {:induction false} SpacesSound(p: Pattern, pi: nat, s: string, i: nat)
    requires pi < |p| && p[pi].Spaces? && i <= |s|
    ensures MatchAt(p, pi, s, i) ==> MatchesPrefix(p, pi, s, i)
    decreases |s| - i, |p| - pi, 0
  {
    var q := p[pi..];
    if MatchAt(p, pi, s, i) {
      assert q[0] == p[pi] && q[1..] == p[pi + 1..];
      if MatchAt(p, pi + 1, s, i + 1) {
        MatchAtCorrect(p, pi + 1, s, i + 1);
        var j :| i + 1 <= j <= |s| && Derives(q[1..], s[i + 1..j]);
        var t := s[i..j];
        assert t[..1] == [s[i]] && t[1..] == s[i + 1..j];
        assert Derives(q, t);
      } else {
        MatchAtCorrect(p, pi, s, i + 1);
        var j :| i + 1 <= j <= |s| && Derives(q, s[i + 1..j]);
        var u := s[i + 1..j];
        var k :| 1 <= k <= |u| && AllSpace(u[..k]) && Derives(q[1..], u[k..]);
        var t := s[i..j];
        ConsRun(t, u, k);
        assert t[0] == s[i];
        assert AllSpace(t[..k + 1]);
        assert Derives(q, t);
      }
    }
  }

  lemma {:induction false} SpacesComplete(p: Pattern, pi: nat, s: string, i: nat)
    requires pi < |p| && p[pi].Spaces? && i <= |s|
    ensures MatchesPrefix(p, pi, s, i) ==> MatchAt(p, pi, s, i)
    decreases |s| - i, |p| - pi, 0
  {
    var q := p[pi..];
    if MatchesPrefix(p, pi, s, i) {
      assert q[0] == p[pi] && q[1..] == p[pi + 1..];
      var j :| i <= j <= |s| && Derives(q, s[i..j]);
      var t := s[i..j];
      var k :| 1 <= k <= |t| && AllSpace(t[..k]) && Derives(q[1..], t[k..]);
      assert t[..k][0] == s[i];
      var u := s[i + 1..j];
      if k == 1 {
        assert t[1..] == u;
        MatchAtCorrect(p, pi + 1, s, i + 1);
      } else {
        SpacesStep(q, t, u, k);
        MatchAtCorrect(p, pi, s, i + 1);
      }
    }
  }

  /** A run of at least two spaces that starts a derivation still starts one without its first space. */
  lemma SpacesStep(q: Pattern, t: string, u: string, k: nat)
    requires q != [] && q[0] == Spaces
    requires 1 <= |t| && t[1..] == u && 2 <= k <= |t|
    requires AllSpace(t[..k]) && Derives(q[1..], t[k..])
    ensures Derives(q, u)
  {
    ConsRun(t, u, k - 1);
    assert forall m :: 0 <= m < k - 1 ==> u[..k - 1][m] == u[m];
    assert AllSpace(u[..k - 1]);
  }

  /** Likewise for a non-empty run of `.*`. */
  lemma LineStep(q: Pattern, t: string, u: string, k: nat)
    requires q != [] && q[0] == Line
    requires 1 <= |t| && t[1..] == u && 1 <= k <= |t|
    requires NoNewline(t[..k]) && Derives(q[1..], t[k..])
    ensures Derives(q, u)
  {
    ConsRun(t, u, k - 1);
    assert forall m :: 0 <= m < k - 1 ==> u[..k - 1][m] == u[m];
    assert NoNewline(u[..k - 1]);
  }

  lemma {:induction false} LineSound(p: Pattern, pi: nat, s: string, i: nat)
    requires pi < |p| && p[pi].Line? && i <= |s|
    ensures MatchAt(p, pi, s, i) ==> MatchesPrefix(p, pi, s, i)
    decreases |s| - i, |p| - pi, 0
  {
    var q := p[pi..];
    if MatchAt(p, pi, s, i) {
      assert q[0] == p[pi] && q[1..] == p[pi + 1..];
      if MatchAt(p, pi + 1, s, i) {
        MatchAtCorrect(p, pi + 1, s, i);
        var j :| i <= j <= |s| && Derives(q[1..], s[i..j]);
        var t := s[i..j];
        assert t[..0] == [] && t[0..] == t;
        assert Derives(q, t);
      } else {
        MatchAtCorrect(p, pi, s, i + 1);
        var j :| i + 1 <= j <= |s| && Derives(q, s[i + 1..j]);
        var u := s[i + 1..j];
        var k :| 0 <= k <= |u| && NoNewline(u[..k]) && Derives(q[1..], u[k..]);
        var t := s[i..j];
        ConsRun(t, u, k);
        assert t[0] == s[i];
        assert NoNewline(t[..k + 1]);
        assert Derives(q, t);
      }
    }
  }

  lemma {:induction false} LineComplete(p: Pattern, pi: nat, s: string, i: nat)
    requires pi < |p| && p[pi].Line? && i <= |s|
    ensures MatchesPrefix(p, pi, s, i) ==> MatchAt(p, pi, s, i)
    decreases |s| - i, |p| - pi, 0
  {
    var q := p[pi..];
    if MatchesPrefix(p, pi, s, i) {
      assert q[0] == p[pi] && q[1..] == p[pi + 1..];
      var j :| i <= j <= |s| && Derives(q, s[i..j]);
      var t := s[i..j];
      var k :| 0 <= k <= |t| && NoNewline(t[..k]) && Derives(q[1..], t[k..]);
      if k == 0 {
        assert t[0..] == t;
        MatchAtCorrect(p, pi + 1, s, i);
      } else {
        assert t[..k][0] == s[i];
        var u := s[i + 1..j];
        LineStep(q, t, u, k);
        MatchAtCorrect(p, pi, s, i + 1);
      }
    }
  }

  lemma {:induction false} SearchFromCorrect(p: Pattern, s: string, i: nat)
    requires i <= |s|
    ensures SearchFrom(p, s, i) <==> exists a, j :: i <= a <= j <= |s| && Derives(p, s[a..j])
    decreases |s| - i
  {
    assert p[0..] == p;
    MatchAtCorrect(p, 0, s, i);
    if i < |s| {
      SearchFromCorrect(p, s, i + 1);
    }
    if a, j :| i <= a <= j <= |s| && Derives(p, s[a..j]) {
      if a > i {
        assert i + 1 <= a;
      }
    }
  }

  lemma DerivesWord(w: string, t: string)
    ensures Derives([Lit(w)], t) <==> t == w
  {
    assert [Lit(w)][1..] == [];
    if t == w {
      assert t[..|w|] == w && t[|w|..] == [];
    }
  }

  lemma FoundWordIffOccurs(w: string, s: string)
    ensures Found([Lit(w)], s) <==> Occurs(w, s)
  {
    if Found([Lit(w)], s) {
      var i, j :| 0 <= i <= j <= |s| && Derives([Lit(w)], s[i..j]);
      DerivesWord(w, s[i..j]);
      assert OccursAt(w, s, i);
    }
    if Occurs(w, s) {
      var i: nat :| OccursAt(w, s, i);
      DerivesWord(w, s[i..i + |w|]);
      assert 0 <= i <= i + |w| <= |s| && Derives([Lit(w)], s[i..i + |w|]);
      assert Found([Lit(w)], s);
    }
  }

  // ---------------------------------------------------------------------------
  // A literal piece must appear in any text the pattern is found in.

  /** What one piece matches on its own. */
  ghost predicate Consumes(x: Piece, u: string) {
    match x
    case Lit(w) => u == w
    case Spaces => |u| >= 1 && AllSpace(u)
    case Line => NoNewline(u)
  }

  /** A derivation by a non-empty pattern splits off the part the first piece consumed. */
  lemma DerivesTail(p: Pattern, t: string) returns (k: nat)
    requires p != [] && Derives(p, t)
    ensures k <= |t| && Consumes(p[0], t[..k]) && Derives(p[1..], t[k..])
  {
    match p[0] {
      case Lit(v) => k := |v|;
      case Spaces => k :| 1 <= k <= |t| && AllSpace(t[..k]) && Derives(p[1..], t[k..]);
      case Line => k :| 0 <= k <= |t| && NoNewline(t[..k]) && Derives(p[1..], t[k..]);
    }
  }

  lemma {:induction false} DerivesHasWord(p: Pattern, t: string, w: string)
    requires Derives(p, t) && Lit(w) in p
    ensures Occurs(w, t)
    decreases |p|
  {
    if p[0] == Lit(w) {
      assert OccursAt(w, t, 0);
    } else {
      assert Lit(w) in p[1..];
      var k := DerivesTail(p, t);
      DerivesHasWord(p[1..], t[k..], w);
      OccursInSuffix(w, t, k);
    }
  }

  /** A word that occurs in a suffix of a text occurs in the text. */
  lemma OccursInSuffix(w: string, t: string, k: nat)
    requires k <= |t| && Occurs(w, t[k..])
    ensures Occurs(w, t)
  {
    var u := t[k..];
    var i: nat :| OccursAt(w, u, i);
    SliceOfSlice(t, k, |t|, i, i + |w|);
    assert OccursAt(w, t, k + i);
  }

  lemma SliceOfSlice(s: string, i: nat, j: nat, a: nat, b: nat)
    requires i <= j <= |s| && a <= b <= j - i
    ensures s[i..j][a..b] == s[i + a..i + b]
  {
    forall x | 0 <= x < b - a
      ensures s[i..j][a..b][x] == s[i + a..i + b][x]
    {
    }
  }

  /** Every pattern that is found contains each of its literal words in the text. */
  lemma FoundHasWord(p: Pattern, s: string, w: string)
    requires Found(p, s) && Lit(w) in p
    ensures Occurs(w, s)
  {
    var i, j :| 0 <= i <= j <= |s| && Derives(p, s[i..j]);
    DerivesHasWord(p, s[i..j], w);
    var m: nat :| OccursAt(w, s[i..j], m);
    SliceOfSlice(s, i, j, m, m + |w|);
    assert OccursAt(w, s, i + m);
  }

  /** So a pattern cannot be found in a text that lacks one of its words. */
  lemma MissingWordNotFound(p: Pattern, s: string, w: string)
    requires Lit(w) in p && !Occurs(w, s)
    ensures !Found(p, s)
  {
    if Found(p, s) {
      FoundHasWord(p, s, w);
    }
  }

  // ---------------------------------------------------------------------------
  // Building derivations piece by piece.

  lemma DerivesLit(w: string, rest: string, p: Pattern)
    requires Derives(p, rest)
    ensures Derives([Lit(w)] + p, w + rest)
  {
    var q := [Lit(w)] + p;
    var t := w + rest;
    assert q[0] == Lit(w) && q[1..] == p;
    assert t[..|w|] == w && t[|w|..] == rest;
  }

  lemma DerivesSpaces(gap: string, rest: string, p: Pattern)
    requires |gap| >= 1 && AllSpace(gap) && Derives(p, rest)
    ensures Derives([Spaces] + p, gap + rest)
  {
    var q := [Spaces] + p;
    var t := gap + rest;
    assert q[0] == Spaces && q[1..] == p;
    assert t[..|gap|] == gap && t[|gap|..] == rest;
  }

  lemma DerivesLine(mid: string, rest: string, p: Pattern)
    requires NoNewline(mid) && Derives(p, rest)
    ensures Derives([Line] + p, mid + rest)
  {
    var q := [Line] + p;
    var t := mid + rest;
    assert q[0] == Line && q[1..] == p;
    assert t[..|mid|] == mid && t[|mid|..] == rest;
  }

  lemma DerivesEmpty()
    ensures Derives([], [])
  {
  }

  /** A derivation of a piece of the text is a match anywhere in it. */
  lemma FoundInside(p: Pattern, pre: string, t: string, post: string)
    requires Derives(p, t)
    ensures Found(p, pre + t + post)
  {
    var s := pre + t + post;
    assert s[|pre|..|pre| + |t|] == t;
  }

  /** A word with a letter the text lacks does not occur in it. */
  lemma AbsentLetterBlocks(w: string, s: string, c: char)
    requires c in w && c !in s
    ensures !Occurs(w, s)
  {
  }

  /**
   A two-letter word missing from both halves of a text is missing from the
   whole unless it straddles the join.
   */
  lemma PairAbsentJoin(w: string, a: string, b: string)
    requires |w| == 2 && !Occurs(w, a) && !Occurs(w, b)
    requires a == [] || b == [] || a[|a| - 1] != w[0] || b[0] != w[1]
    ensures !Occurs(w, a + b)
  {
    if i: nat :| OccursAt(w, a + b, i) {
      var s := a + b;
      if i + 2 <= |a| {
        assert s[i..i + 2] == a[i..i + 2];
        assert OccursAt(w, a, i);
      } else if i >= |a| {
        var j: nat := i - |a|;
        assert s[i..i + 2] == b[j..j + 2];
        assert OccursAt(w, b, j);
      }
    }
  }

  /**
   A two-letter word is missing from `a + b + c` when `a` and `c` lack its
   first letter, `b` lacks its second, and `b` does not end in its first.
   */
  lemma PairAbsentThree(w: string, a: string, b: string, c: string)
    requires |w| == 2 && w[0] !in a && w[1] !in b && w[0] !in c
    requires b == [] || b[|b| - 1] != w[0]
    ensures !Occurs(w, a + b + c)
  {
    AbsentLetterBlocks(w, a, w[0]);
    AbsentLetterBlocks(w, b, w[1]);
    AbsentLetterBlocks(w, c, w[0]);
    PairAbsentJoin(w, a, b);
    PairAbsentJoin(w, a + b, c);
  }

  /** A word occurs in any text built around it. */
  lemma WordInside(pre: string, w: string, post: string)
    ensures Occurs(w, pre + w + post)
  {
    assert OccursAt(w, pre + w + post, |pre|);
  }

  /** Conversely, a first piece's match followed by a derivation of the rest derives the whole. */
  lemma DerivesCons(x: Piece, u: string, q: Pattern, v: string)
    requires Consumes(x, u) && Derives(q, v)
    ensures Derives([x] + q, u + v)
  {
    match x {
      case Lit(w) => DerivesLit(w, v, q);
      case Spaces => DerivesSpaces(u, v, q);
      case Line => DerivesLine(u, v, q);
    }
  }

  /** A text derived by `p + q` splits into a part derived by `p` and a part derived by `q`. */
  lemma {:induction false} DerivesSplit(p: Pattern, q: Pattern, t: string) returns (k: nat)
    requires Derives(p + q, t)
    ensures k <= |t| && Derives(p, t[..k]) && Derives(q, t[k..])
    decreases |p|
  {
    if p == [] {
      assert p + q == q;
      k := 0;
      assert t[..0] == [] && t[0..] == t;
    } else {
      assert (p + q)[0] == p[0] && (p + q)[1..] == p[1..] + q;
      var j := DerivesTail(p + q, t);
      var k' := DerivesSplit(p[1..], q, t[j..]);
      k := j + k';
      DerivesRejoin(p, t, j, k');
      SuffixOfSuffix(t, j, k');
    }
  }

  lemma SuffixOfSuffix(t: string, j: nat, k': nat)
    requires j + k' <= |t|
    ensures t[j..][k'..] == t[j + k'..]
  {
  }

  lemma DerivesRejoin(p: Pattern, t: string, j: nat, k': nat)
    requires p != [] && j + k' <= |t|
    requires Consumes(p[0], t[..j]) && Derives(p[1..], t[j..][..k'])
    ensures Derives(p, t[..j + k'])
  {
    DerivesCons(p[0], t[..j], p[1..], t[j..][..k']);
    assert [p[0]] + p[1..] == p;
    assert t[..j] + t[j..][..k'] == t[..j + k'];
  }

  /** Whatever a longer pattern is found in, each of its prefixes is found in too. */
  lemma FoundPrefix(p: Pattern, q: Pattern, s: string)
    requires Found(p + q, s)
    ensures Found(p, s)
  {
    var i, j :| 0 <= i <= j <= |s| && Derives(p + q, s[i..j]);
    var k := DerivesSplit(p, q, s[i..j]);
    assert s[i..j][..k] == s[i..i + k];
    assert 0 <= i <= i + k <= |s| && Derives(p, s[i..i + k]);
  }

  /** "a b" with a single space is matched by `a\s+b` wherever it appears. */
  lemma SpacedWordsFound(a: string, b: string, pre: string, post: string)
    ensures Found([Lit(a), Spaces, Lit(b)], pre + (a + " " + b) + post)
  {
    DerivesEmpty();
    DerivesLit(b, [], []);
    assert b + [] == b && [Lit(b)] + [] == [Lit(b)];
    DerivesSpaces(" ", b, [Lit(b)]);
    assert [Spaces] + [Lit(b)] == [Spaces, Lit(b)];
    DerivesLit(a, " " + b, [Spaces, Lit(b)]);
    assert [Lit(a)] + [Spaces, Lit(b)] == [Lit(a), Spaces, Lit(b)];
    assert a + (" " + b) == a + " " + b;
    FoundInside([Lit(a), Spaces, Lit(b)], pre, a + " " + b, post);
  }

  /** The whole text "<a> <b>" is found by `<a>\s+<b>`. */
  lemma TwoWordsFound(s: string, a: string, b: string)
    requires s == a + " " + b
    ensures Found([Lit(a), Spaces, Lit(b)], s)
  {
    SpacedWordsFound(a, b, [], []);
    assert [] + (a + " " + b) + [] == s;
  }
}
