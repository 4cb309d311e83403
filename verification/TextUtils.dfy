/** `splitString`: a destructive search loop, and the exact conditions under which splitting
    and joining undo each other. */
module TextUtils {
  import opened Options

  // ---------- strings ----------

  predicate OccursAt(s: string, d: string, i: nat) {
    i + |d| <= |s| && s[i..i + |d|] == d
  }

  /** No occurrence of `d` anywhere in `s`. */
  ghost predicate Free(s: string, d: string) {
    forall i: nat :: !OccursAt(s, d, i)
  }

  function FindFrom(s: string, d: string, from: nat): (r: Option<nat>)
    requires from <= |s|
    ensures r.Some? ==> from <= r.value && OccursAt(s, d, r.value)
    ensures forall i: nat | from <= i && (r.Some? ==> i < r.value) :: !OccursAt(s, d, i)
    decreases |s| - from
  {
    if OccursAt(s, d, from) then Some(from)
    else if from == |s| then None
    else FindFrom(s, d, from + 1)
  }

  /** `std::string::find`: the first occurrence, or None for `npos`. */
  function Find(s: string, d: string): (r: Option<nat>)
    ensures r.Some? ==> OccursAt(s, d, r.value) && forall i: nat | i < r.value :: !OccursAt(s, d, i)
    ensures r.None? <==> Free(s, d)
  {
    FindFrom(s, d, 0)
  }

  /** `Find` is the only position with its property. */
  lemma FindIs(s: string, d: string, p: nat)
    requires OccursAt(s, d, p) && forall i: nat | i < p :: !OccursAt(s, d, i)
    ensures Find(s, d) == Some(p)
  {
    assert !Free(s, d);
  }

  /** `d` starts and ends with the same `k` characters, and is longer than that. */
  predicate Border(d: string, k: nat) {
    0 < k < |d| && d[..k] == d[|d| - k..]
  }

  ghost predicate Unbordered(d: string) {
    d != "" && forall k: nat :: !Border(d, k)
  }

  // ---------- what the loop computes ----------

  /** What the loop still cuts off when its working string is `t`. */
  function Pieces(t: string, d: string): seq<string>
    requires d != ""
    decreases |t|
  {
    match Find(t, d)
    case None => []
    case Some(p) => [t[..p]] + Pieces(t[p + |d|..], d)
  }

  /** The working string when the loop gives up. */
  function Rest(t: string, d: string): string
    requires d != ""
    decreases |t|
  {
    match Find(t, d)
    case None => t
    case Some(p) => Rest(t[p + |d|..], d)
  }

  function Split(s: string, d: string): seq<string>
    requires s == "" || d != ""
  {
    if s == "" then [] else Pieces(s + d, d)
  }

  /** `splitString`. An empty delimiter makes the loop run forever on a non-empty string. */
  method SplitString(str: string, splits: string) returns (res: seq<string>)
    requires str == "" || splits != ""
    ensures res == Split(str, splits)
  {
    res := [];
    if str == "" {
      return;
    }
    var strs := str + splits;
    var pos := Find(strs, splits);
    var step := |splits|;
    while pos.Some?
      invariant pos == Find(strs, splits)
      invariant res + Pieces(strs, splits) == Pieces(str + splits, splits)
      decreases |strs|
    {
      var temp := strs[..pos.value];
      res := res + [temp];
      strs := strs[pos.value + step..];
      pos := Find(strs, splits);
    }
  }

  // ---------- putting pieces together ----------

  /** Every piece followed by the delimiter. */
  function Terminated(ps: seq<string>, d: string): string {
    if ps == [] then "" else ps[0] + d + Terminated(ps[1..], d)
  }

  /** The pieces with the delimiter between them. */
  function Join(ps: seq<string>, d: string): string {
    if ps == [] then "" else if |ps| == 1 then ps[0] else ps[0] + d + Join(ps[1..], d)
  }

  ghost predicate AllFree(ps: seq<string>, d: string) {
    forall i | 0 <= i < |ps| :: Free(ps[i], d)
  }

  lemma {:induction false} TerminatedIsJoin(ps: seq<string>, d: string)
    requires ps != []
    ensures Terminated(ps, d) == Join(ps, d) + d
  {
    if |ps| == 1 {
      assert Terminated(ps[1..], d) == "";
    } else {
      TerminatedIsJoin(ps[1..], d);
      assert ps[0] + d + (Join(ps[1..], d) + d) == ps[0] + d + Join(ps[1..], d) + d;
    }
  }

  // ---------- any delimiter: nothing is lost ----------

  lemma FreePrefix(t: string, d: string, p: nat)
    requires d != "" && Find(t, d) == Some(p)
    ensures Free(t[..p], d)
  {
    forall i: nat ensures !OccursAt(t[..p], d, i) {
      if OccursAt(t[..p], d, i) {
        assert t[i..i + |d|] == t[..p][i..i + |d|];
        assert OccursAt(t, d, i);
      }
    }
  }

  lemma TerminatedPrepend(p: string, ps: seq<string>, d: string, rest: string)
    ensures Terminated([p] + ps, d) + rest == p + d + (Terminated(ps, d) + rest)
  {
    assert ([p] + ps)[1..] == ps;
  }

  lemma CutAt(t: string, d: string, p: nat)
    requires OccursAt(t, d, p)
    ensures t == t[..p] + d + t[p + |d|..]
  {
    assert t == t[..p] + t[p..p + |d|] + t[p + |d|..];
  }

  lemma EndsWithDelimiter(head: string, r: string, s: string, d: string)
    requires head + r == s + d
    ensures |r| >= |d| ==> OccursAt(r, d, |r| - |d|)
  {
    if |r| >= |d| {
      assert r[|r| - |d|..] == (head + r)[|s|..] == d;
    }
  }

  lemma {:induction false} CutKeepsText(t: string, d: string)
    requires d != ""
    ensures Terminated(Pieces(t, d), d) + Rest(t, d) == t
    decreases |t|
  {
    match Find(t, d)
    case None =>
    case Some(p) =>
      var u := t[p + |d|..];
      CutKeepsText(u, d);
      TerminatedPrepend(t[..p], Pieces(u, d), d, Rest(u, d));
      CutAt(t, d, p);
      assert Pieces(t, d) == [t[..p]] + Pieces(u, d);
  }

  lemma RestStep(t: string, d: string, p: nat, u: string)
    requires d != "" && Find(t, d) == Some(p) && u == t[p + |d|..]
    ensures Rest(t, d) == Rest(u, d)
  {
  }

  lemma PiecesStep(t: string, d: string, p: nat)
    requires d != "" && Find(t, d) == Some(p)
    ensures Pieces(t, d) == [t[..p]] + Pieces(t[p + |d|..], d)
  {
  }

  lemma AllFreePrepend(p: string, ps: seq<string>, d: string)
    requires Free(p, d) && AllFree(ps, d)
    ensures AllFree([p] + ps, d)
  {
    forall i | 0 <= i < |[p] + ps| ensures Free(([p] + ps)[i], d) {
      if i > 0 { assert ([p] + ps)[i] == ps[i - 1]; }
    }
  }

  lemma {:induction false} CutLeavesFree(t: string, d: string)
    requires d != ""
    ensures AllFree(Pieces(t, d), d) && Free(Rest(t, d), d)
    ensures Pieces(t, d) == [] <==> Free(t, d)
    decreases |t|
  {
    var found := Find(t, d);
    if found.Some? {
      var p := found.value;
      var u := t[p + |d|..];
      CutLeavesFree(u, d);
      FreePrefix(t, d, p);
      AllFreePrepend(t[..p], Pieces(u, d), d);
      PiecesStep(t, d, p);
      RestStep(t, d, p, u);
    }
  }

  /** Splitting, for every non-empty string and delimiter: the pieces, each followed by the
      delimiter, and then a remainder shorter than the delimiter spell the input followed by
      the delimiter; pieces and remainder are delimiter-free and there is at least one piece. */
  lemma SplitLosesNothing(s: string, d: string)
    requires s != "" && d != ""
    ensures Terminated(Split(s, d), d) + Rest(s + d, d) == s + d
    ensures |Rest(s + d, d)| < |d| && Free(Rest(s + d, d), d)
    ensures Split(s, d) != [] && AllFree(Split(s, d), d)
  {
    var t, r := s + d, Rest(s + d, d);
    CutKeepsText(t, d);
    CutLeavesFree(t, d);
    assert OccursAt(t, d, |s|);
    EndsWithDelimiter(Terminated(Split(s, d), d), r, s, d);
  }

  /** What follows the first occurrence does not matter for finding it. */
  lemma FirstInPrefix(a: string, b: string, d: string, p: nat)
    requires p + |d| <= |a|
    ensures Find(a, d) == Some(p) <==> Find(a + b, d) == Some(p)
  {
    forall i: nat | i <= p ensures OccursAt(a + b, d, i) <==> OccursAt(a, d, i) {
      assert (a + b)[i..i + |d|] == a[i..i + |d|];
    }
    if Find(a, d) == Some(p) { FindIs(a + b, d, p); }
    if Find(a + b, d) == Some(p) { FindIs(a, d, p); }
  }

  /** In each piece followed by the delimiter the delimiter that ends it is the first one. */
  ghost predicate CutEarly(ps: seq<string>, d: string) {
    forall i | 0 <= i < |ps| :: Find(ps[i] + d, d) == Some(|ps[i]|)
  }

  ghost predicate Cuts(t: string, d: string, ps: seq<string>, r: string) {
    Terminated(ps, d) + r == t && Free(r, d) && CutEarly(ps, d)
  }

  lemma {:induction false} PiecesCut(t: string, d: string)
    requires d != ""
    ensures Cuts(t, d, Pieces(t, d), Rest(t, d))
    decreases |t|
  {
    CutKeepsText(t, d);
    CutLeavesFree(t, d);
    var found := Find(t, d);
    if found.Some? {
      var p := found.value;
      var u := t[p + |d|..];
      PiecesCut(u, d);
      CutAt(t, d, p);
      FirstInPrefix(t[..p] + d, u, d, p);
      PiecesStep(t, d, p);
      CutEarlyPrepend(t[..p], Pieces(u, d), d);
    }
  }

  lemma CutEarlyPrepend(p: string, ps: seq<string>, d: string)
    requires Find(p + d, d) == Some(|p|) && CutEarly(ps, d)
    ensures CutEarly([p] + ps, d)
  {
    forall i | 0 <= i < |[p] + ps| ensures Find(([p] + ps)[i] + d, d) == Some(|([p] + ps)[i]|) {
      if i > 0 { assert ([p] + ps)[i] == ps[i - 1]; }
    }
  }

  lemma CutsHead(t: string, d: string, ps: seq<string>, r: string, u: string)
    requires d != "" && Cuts(t, d, ps, r) && ps != [] && u == Terminated(ps[1..], d) + r
    ensures t == ps[0] + d + u && Find(t, d) == Some(|ps[0]|)
  {
    assert ps[0] + d + Terminated(ps[1..], d) + r == ps[0] + d + u;
    FirstInPrefix(ps[0] + d, u, d, |ps[0]|);
  }

  lemma CutsTail(t: string, d: string, ps: seq<string>, r: string)
    requires Cuts(t, d, ps, r) && ps != []
    ensures Cuts(Terminated(ps[1..], d) + r, d, ps[1..], r)
  {
    forall i | 0 <= i < |ps[1..]| ensures Find(ps[1..][i] + d, d) == Some(|ps[1..][i]|) {
      assert ps[1..][i] == ps[i + 1];
    }
  }

  lemma {:induction false} OnlyCut(t: string, d: string, ps: seq<string>, r: string)
    requires d != "" && Cuts(t, d, ps, r)
    ensures ps == Pieces(t, d) && r == Rest(t, d)
    decreases |ps|
  {
    if ps == [] {
      assert t == r;
    } else {
      var p, u := ps[0], Terminated(ps[1..], d) + r;
      CutsHead(t, d, ps, r, u);
      CutsTail(t, d, ps, r);
      assert t[..|p|] == p && t[|p| + |d|..] == u;
      OnlyCut(u, d, ps[1..], r);
      PiecesStep(t, d, |p|);
      RestStep(t, d, |p|, u);
      assert ps == [p] + ps[1..];
    }
  }

  /** Splitting, completely, for every non-empty string and delimiter: the pieces and the remainder
      are the only ones that spell the input followed by the delimiter, such that each piece is
      ended by the first delimiter there is and the remainder contains none. */
  lemma SplitIff(s: string, d: string, ps: seq<string>, r: string)
    requires s != "" && d != ""
    ensures Cuts(s + d, d, ps, r) <==> ps == Split(s, d) && r == Rest(s + d, d)
  {
    PiecesCut(s + d, d);
    if Cuts(s + d, d, ps, r) { OnlyCut(s + d, d, ps, r); }
  }

  /** Joining gives the string back exactly when nothing remains. */
  lemma RoundTripIffNoRemainder(s: string, d: string)
    requires s != "" && d != ""
    ensures Join(Split(s, d), d) == s <==> Rest(s + d, d) == ""
  {
    SplitLosesNothing(s, d);
    TerminatedIsJoin(Split(s, d), d);
    var j, r := Join(Split(s, d), d), Rest(s + d, d);
    assert |j + d + r| == |s + d|;
    if r == "" {
      assert j + d == s + d;
      assert j == (j + d)[..|j|] == (s + d)[..|s|] == s;
    }
  }

  // ---------- when something remains ----------

  /** `t` ends with all of the delimiter but a border of it: appending the delimiter then makes
      an occurrence that starts before the appended one. */
  ghost predicate Overhang(t: string, d: string) {
    exists k: nat :: OverhangBy(t, d, k)
  }

  ghost predicate OverhangBy(t: string, d: string, k: nat) {
    Border(d, k) && |d| - k <= |t| && t[|t| - (|d| - k)..] == d[..|d| - k]
  }

  /** An occurrence in `t + d` before the last one is an overhang, and the other way round. */
  lemma OccursAcross(t: string, d: string, q: nat)
    requires Free(t, d) && d != "" && q < |t|
    ensures OccursAt(t + d, d, q) <==> |t| - q < |d| && OverhangBy(t, d, |d| - (|t| - q))
  {
    var w, m := t + d, |t| - q;
    if OccursAt(w, d, q) {
      if m >= |d| {
        assert t[q..q + |d|] == w[q..q + |d|];
        assert OccursAt(t, d, q);
      }
      var k := |d| - m;
      assert w[q..q + |d|] == t[q..] + d[..k];
      assert (t[q..] + d[..k])[..m] == t[q..] == d[..m];
      assert (t[q..] + d[..k])[m..] == d[..k] == d[m..];
    }
    if m < |d| && OverhangBy(t, d, |d| - m) {
      var k := |d| - m;
      assert w[q..q + |d|] == t[q..] + d[..k];
      assert d[..m] + d[m..] == d;
    }
  }

  lemma RestOfFreeTail(t: string, d: string)
    requires d != "" && Free(t, d)
    ensures Rest(t + d, d) == "" <==> !Overhang(t, d)
  {
    var w := t + d;
    assert OccursAt(w, d, |t|);
    var q := Find(w, d).value;
    if q == |t| {
      assert w[q + |d|..] == "";
      forall k: nat ensures !OverhangBy(t, d, k) {
        if OverhangBy(t, d, k) { OccursAcross(t, d, |t| - (|d| - k)); }
      }
    } else {
      OccursAcross(t, d, q);
      assert OverhangBy(t, d, |d| - (|t| - q));
      var u := w[q + |d|..];
      assert 0 < |u| < |d|;
      assert Find(u, d).None?;
    }
  }

  /** Cutting the first piece off `s` leaves the same remainder, with or without the delimiter
      appended. */
  lemma RestAfterFirstCut(s: string, d: string, p: nat, u: string)
    requires d != "" && Find(s, d) == Some(p) && u == s[p + |d|..]
    ensures Rest(s, d) == Rest(u, d) && Rest(s + d, d) == Rest(u + d, d)
  {
    var w, v := s + d, u + d;
    FirstInPrefix(s, d, d, p);
    assert v == w[p + |d|..];
    RestStep(s, d, p, u);
    RestStep(w, d, p, v);
  }

  /** The cuts made inside `s` are the same whether or not the delimiter has been appended. */
  lemma {:induction false} RestIgnoresCuts(s: string, d: string, r: string)
    requires d != "" && r == Rest(s, d)
    ensures Rest(s + d, d) == Rest(r + d, d)
    decreases |s|
  {
    match Find(s, d)
    case None => assert r == s;
    case Some(p) =>
      var u := s[p + |d|..];
      RestAfterFirstCut(s, d, p, u);
      RestIgnoresCuts(u, d, r);
  }

  /** For every non-empty string and delimiter, joining the pieces gives the string back if and
      only if what follows the last delimiter cut out of `s` does not overhang. */
  lemma RoundTripIffNoOverhang(s: string, d: string)
    requires s != "" && d != ""
    ensures Join(Split(s, d), d) == s <==> !Overhang(Rest(s, d), d)
  {
    RoundTripIffNoRemainder(s, d);
    RestIgnoresCuts(s, d, Rest(s, d));
    CutLeavesFree(s, d);
    RestOfFreeTail(Rest(s, d), d);
  }

  // ---------- which delimiters are safe ----------

  /** The string a bordered delimiter loses: the delimiter without its border. */
  lemma BorderLosesText(d: string, k: nat)
    requires Border(d, k)
    ensures d[..|d| - k] != "" && Split(d[..|d| - k], d) == [""]
  {
    var s := d[..|d| - k];
    var w := s + d;
    assert w[..|d|] == s + d[..k] == s + d[|d| - k..] == d;
    assert OccursAt(w, d, 0);
    FindIs(w, d, 0);
    assert w[..0] == "";
    assert |w[|d|..]| < |d|;
    assert Find(w[|d|..], d).None?;
    assert Pieces(w, d) == [w[..0]] + Pieces(w[|d|..], d);
  }

  /** Splitting and joining round-trips on every non-empty string if and only if the delimiter
      has no border. */
  lemma SplitThenJoin(d: string)
    requires d != ""
    ensures (forall s: string | s != "" :: Join(Split(s, d), d) == s) <==> Unbordered(d)
  {
    if Unbordered(d) {
      forall s: string | s != "" ensures Join(Split(s, d), d) == s {
        RoundTripIffNoOverhang(s, d);
        forall k: nat ensures !OverhangBy(Rest(s, d), d, k) {
          assert !Border(d, k);
        }
      }
    } else {
      var k: nat :| Border(d, k);
      BorderLosesText(d, k);
      assert Join([""], d) != d[..|d| - k];
    }
  }

  /** With an unbordered delimiter the first occurrence after a delimiter-free piece is the
      one that ends it. */
  lemma FirstAfterPiece(p: string, d: string, u: string)
    requires Unbordered(d) && Free(p, d)
    ensures Find(p + d + u, d) == Some(|p|)
  {
    var w := p + d + u;
    assert w[|p|..|p| + |d|] == d;
    forall i: nat | i < |p| ensures !OccursAt(w, d, i) {
      if i + |d| <= |p| {
        assert w[i..i + |d|] == p[i..i + |d|];
        assert !OccursAt(p, d, i);
      } else if OccursAt(w, d, i) {
        var k := i + |d| - |p|;
        assert w[i..i + |d|][|d| - k..] == w[|p|..i + |d|] == d[..k];
        assert Border(d, k);
      }
    }
    FindIs(w, d, |p|);
  }

  lemma {:induction false} PiecesOfTerminated(ps: seq<string>, d: string)
    requires Unbordered(d) && AllFree(ps, d)
    ensures Pieces(Terminated(ps, d), d) == ps
  {
    if ps == [] {
      assert Find("", d).None?;
    } else {
      var u := Terminated(ps[1..], d);
      FirstAfterPiece(ps[0], d, u);
      assert (ps[0] + d + u)[..|ps[0]|] == ps[0];
      assert (ps[0] + d + u)[|ps[0]| + |d|..] == u;
      PiecesOfTerminated(ps[1..], d);
    }
  }

  ghost predicate JoinSplits(ps: seq<string>, d: string)
    requires d != ""
  {
    ps != [] && AllFree(ps, d) && Join(ps, d) != "" ==> Split(Join(ps, d), d) == ps
  }

  /** Joining and then splitting gives back every list of delimiter-free pieces whose join is
      not empty if and only if the delimiter has no border. */
  lemma JoinThenSplit(d: string)
    requires d != ""
    ensures (forall ps: seq<string> :: JoinSplits(ps, d)) <==> Unbordered(d)
  {
    if Unbordered(d) {
      forall ps: seq<string> ensures JoinSplits(ps, d) {
        if ps != [] && AllFree(ps, d) && Join(ps, d) != "" {
          TerminatedIsJoin(ps, d);
          PiecesOfTerminated(ps, d);
        }
      }
    } else {
      var k: nat :| Border(d, k);
      BorderLosesText(d, k);
      var ps := [d[..|d| - k]];
      assert Join(ps, d) == ps[0];
      assert ps[0] != [""][0];
      assert !JoinSplits(ps, d);
    }
  }

  /** Every one-character delimiter is safe in both directions. */
  lemma SingleCharacter(c: char)
    ensures Unbordered([c])
    ensures forall s: string | s != "" :: Join(Split(s, [c]), [c]) == s
    ensures forall ps: seq<string> :: JoinSplits(ps, [c])
  {
    SplitThenJoin([c]);
    JoinThenSplit([c]);
  }
}
