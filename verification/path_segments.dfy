/** A reference definition of the translation outside extended mode and
    outside windows mode, built the other way round from the scan: cut the
    glob at every `/` into pieces, translate each piece on its own, then join
    the translations with separator tokens and file one segment per piece.
    The main lemma says the scan computes exactly this. */
module PathSegments {
  import opened Config
  import opened Globrex
  import opened ScanProps
  import opened Rules

  /** The index of the first `/` in `g`, or `|g|` when there is none. */
  function FirstSlash(g: string): (e: nat)
    ensures e <= |g| && '/' !in g[..e] && (e < |g| ==> g[e] == '/')
  {
    if g == [] || g[0] == '/' then 0
    else
      var e := 1 + FirstSlash(g[1..]);
      assert g[..e] == [g[0]] + g[1..][..e - 1];
      e
  }

  /** The pieces of `g` between separators, in order; two adjacent `/` give
      an empty piece. */
  function Split(g: string): (ps: seq<string>)
    ensures |ps| >= 1
    decreases |g|
  {
    var e := FirstSlash(g);
    if e == |g| then [g] else [g[..e]] + Split(g[e + 1..])
  }

  function Join(ps: seq<string>): string
    requires |ps| >= 1
  {
    if |ps| == 1 then ps[0] else ps[0] + "/" + Join(ps[1..])
  }

  /** No piece holds a `/`. */
  lemma {:induction false} SplitPiecesSlashFree(g: string)
    ensures forall k :: 0 <= k < |Split(g)| ==> '/' !in Split(g)[k]
    decreases |g|
  {
    var e := FirstSlash(g);
    SplitUnfold(g);
    if e == |g| {
      assert g[..e] == g;
    } else {
      SplitPiecesSlashFree(g[e + 1..]);
      var ps := Split(g[e + 1..]);
      var all := [g[..e]] + ps;
      assert Split(g) == all;
      forall k | 0 <= k < |all|
        ensures '/' !in all[k]
      {
        if k > 0 {
          assert all[k] == ps[k - 1];
        }
      }
    }
  }

  /** Joining the pieces with `/` gives the glob back. */
  lemma {:induction false} JoinSplit(g: string)
    ensures Join(Split(g)) == g
    decreases |g|
  {
    var e := FirstSlash(g);
    SplitUnfold(g);
    if e < |g| {
      JoinCons(g[..e], Split(g[e + 1..]));
      JoinSplit(g[e + 1..]);
      CutAt(g, e);
    }
  }

  lemma JoinCons(p: string, ps: seq<string>)
    requires |ps| >= 1
    ensures Join([p] + ps) == p + "/" + Join(ps)
  {
    assert ([p] + ps)[1..] == ps;
  }

  lemma CutAt(g: string, e: nat)
    requires e < |g| && g[e] == '/'
    ensures g == g[..e] + "/" + g[e + 1..]
  {
  }

  /** Cutting a join of `/`-free pieces gives the pieces back. */
  lemma {:induction false} SplitJoin(ps: seq<string>)
    requires |ps| >= 1 && forall k :: 0 <= k < |ps| ==> '/' !in ps[k]
    ensures Split(Join(ps)) == ps
    decreases |ps|
  {
    if |ps| == 1 {
      FirstSlashOfPiece(ps[0], []);
      assert ps[0] + [] == ps[0];
    } else {
      var rest := Join(ps[1..]);
      var g := ps[0] + "/" + rest;
      assert g == ps[0] + ("/" + rest);
      FirstSlashOfPiece(ps[0], "/" + rest);
      assert g[..|ps[0]|] == ps[0];
      assert g[|ps[0]| + 1..] == rest;
      SplitJoin(ps[1..]);
    }
  }

  lemma {:induction false} FirstSlashOfPiece(p: string, rest: string)
    requires '/' !in p && (rest == [] || rest[0] == '/')
    ensures FirstSlash(p + rest) == |p|
  {
    if p != [] {
      assert p[0] in p;
      assert (p + rest)[1..] == p[1..] + rest;
      assert forall c :: c in p[1..] ==> c in p;
      FirstSlashOfPiece(p[1..], rest);
    }
  }

  /** The number of `*` at the start of `p`. */
  function LeadingStars(p: string): (n: nat)
    ensures n <= |p|
    ensures forall k :: 0 <= k < n ==> p[k] == '*'
    ensures n < |p| ==> p[n] != '*'
  {
    if p == [] || p[0] != '*' then 0 else 1 + LeadingStars(p[1..])
  }

  /** The length of the first token of a `/`-free piece outside extended
      mode: a maximal star run, a doubled backslash, or one character. */
  function TokenLen(p: string): (n: nat)
    requires p != []
    ensures 1 <= n <= |p|
  {
    if p[0] == '*' then LeadingStars(p)
    else if p[0] == '\\' && |p| > 1 && p[1] == '\\' then 2
    else 1
  }

  /** The translation of the first token. `inBody` selects the whole-pattern
      text, which also marks a swallowed backslash optional unless strict. */
  function TokenText(o: Options, p: string, inBody: bool): string
    requires p != []
  {
    if p[0] == '*' then (if o.globstar then StarText else ".*")
    else if p[0] == '\\' then
      BackslashText + (if TokenLen(p) == 2 && inBody && !o.strict then "?" else "")
    else Literal(p[0])
  }

  /** The translation of a `/`-free piece, token by token. */
  function Tr(o: Options, p: string, inBody: bool): string
    decreases |p|
  {
    if p == [] then [] else TokenText(o, p, inBody) + Tr(o, p[TokenLen(p)..], inBody)
  }

  /** A piece that is a run of two or more stars, under globstar. */
  predicate IsGlobstarPiece(o: Options, p: string) {
    o.globstar && |p| >= 2 && LeadingStars(p) == |p|
  }

  function TrPiece(o: Options, p: string, inBody: bool): string {
    if IsGlobstarPiece(o, p) then GlobstarText else Tr(o, p, inBody)
  }

  /** The whole-pattern text: piece translations joined by `\/`, with `?`
      after a separator that another `/` follows unless strict; a globstar
      piece absorbs the separator after it. */
  function Body(o: Options, ps: seq<string>): string
    requires |ps| >= 1
  {
    if |ps| == 1 then TrPiece(o, ps[0], true)
    else
      var sep := if IsGlobstarPiece(o, ps[0]) then []
                 else Esc('/') + (if ps[1] == [] && |ps| > 2 && !o.strict then "?" else "");
      TrPiece(o, ps[0], true) + sep + Body(o, ps[1..])
  }

  /** The segment list: one anchored translation per non-empty piece before
      the last; the last piece always, and after a final globstar piece an
      extra empty segment. */
  function SegmentsOf(o: Options, ps: seq<string>): seq<string>
    requires |ps| >= 1
  {
    var seg := TrPiece(o, ps[0], false);
    if |ps| == 1 then
      if IsGlobstarPiece(o, ps[0]) then [Anchor(seg, o.flags), Anchor([], o.flags)] else [Anchor(seg, o.flags)]
    else (if seg == [] then [] else [Anchor(seg, o.flags)]) + SegmentsOf(o, ps[1..])
  }

  // The scan against the reference.

  /** `e` ends the piece that starts at `ps`: the piece holds no `/`, it is
      preceded by `/` or the start and followed by `/` or the end, and it is
      not a globstar piece. */
  predicate OrdinaryPiece(glob: string, o: Options, ps: nat, e: nat) {
    && ps <= e <= |glob|
    && '/' !in glob[ps..e]
    && (e == |glob| || glob[e] == '/')
    && (ps == 0 || glob[ps - 1] == '/')
    && !IsGlobstarPiece(o, glob[ps..e])
  }

  /** Position `i` of the piece does not fall inside a star run begun earlier. */
  predicate TokenStart(glob: string, ps: nat, i: nat) {
    i == ps || i >= |glob| || !(0 < i && glob[i - 1] == '*' && glob[i] == '*')
  }

  /** A star run that a non-star ends by `e` ends by `e`. */
  lemma {:induction false} RunEndWithin(glob: string, i: nat, e: nat)
    requires i < e <= |glob| && glob[i] == '*' && (e == |glob| || glob[e] != '*')
    ensures RunEnd(glob, i) <= e
    ensures LeadingStars(glob[i..e]) == RunEnd(glob, i) - i
    decreases e - i
  {
    assert glob[i..e][0] == '*';
    assert glob[i..e][1..] == glob[i + 1..e];
    if NextIs(glob, i, '*') {
      RunEndWithin(glob, i + 1, e);
    } else if i + 1 < e {
      assert glob[i + 1..e][0] == glob[i + 1];
    }
  }

  lemma StarRunInPiece(glob: string, o: Options, ps: nat, e: nat, i: nat)
    requires OrdinaryPiece(glob, o, ps, e) && ps <= i < e && glob[i] == '*' && TokenStart(glob, ps, i)
    ensures RunEnd(glob, i) <= e
    ensures LeadingStars(glob[i..e]) == RunEnd(glob, i) - i
    ensures o.globstar ==> !IsGlobstar(glob, i, RunEnd(glob, i))
  {
    RunEndWithin(glob, i, e);
    if o.globstar {
      RunInPieceNotGlobstar(glob, o, ps, e, i, RunEnd(glob, i));
    }
  }

  /** A star run strictly inside an ordinary piece is not a whole path
      segment. */
  lemma RunInPieceNotGlobstar(glob: string, o: Options, ps: nat, e: nat, i: nat, j: nat)
    requires OrdinaryPiece(glob, o, ps, e) && ps <= i < j <= e && o.globstar
    requires i > ps ==> glob[i - 1] != '/'
    requires LeadingStars(glob[i..e]) == j - i
    ensures !IsGlobstar(glob, i, j)
  {
    if i > ps {
      assert glob[i - 1] == glob[ps..e][i - 1 - ps];
    } else if j < e {
      assert glob[j] == glob[ps..e][j - ps];
    }
  }

  /** The state after one token: both buffers extended by its translation. */
  function AfterToken(o: Options, s: State, p: string): State
    requires p != []
  {
    s.(i := s.i + TokenLen(p), reStr := s.reStr + TokenText(o, p, true),
       segment := s.segment + TokenText(o, p, false))
  }

  predicate PieceScan(glob: string, o: Options, s: State, ps: nat, e: nat) {
    && !o.extended && !o.windows && Plain(s)
    && OrdinaryPiece(glob, o, ps, e) && ps <= s.i <= e && TokenStart(glob, ps, s.i)
  }

  lemma StarPieceStep(glob: string, o: Options, s: State, ps: nat, e: nat)
    requires PieceScan(glob, o, s, ps, e) && s.i < e && glob[s.i] == '*'
    ensures Step(glob, o, s) == Go(AfterToken(o, s, glob[s.i..e]))
  {
    StarRunInPiece(glob, o, ps, e, s.i);
    if o.globstar {
      SegmentStarStep(glob, o, s);
    } else {
      StarStep(glob, o, s);
    }
  }

  lemma BackslashPieceStep(glob: string, o: Options, s: State, ps: nat, e: nat)
    requires PieceScan(glob, o, s, ps, e) && s.i < e && glob[s.i] == '\\'
    ensures Step(glob, o, s) == Go(AfterToken(o, s, glob[s.i..e]))
  {
    BackslashStep(glob, o, s);
    var p := glob[s.i..e];
    assert NextIs(glob, s.i, '\\') <==> |p| > 1 && p[1] == '\\';
  }

  lemma LiteralPieceStep(glob: string, o: Options, s: State, ps: nat, e: nat)
    requires PieceScan(glob, o, s, ps, e) && s.i < e && glob[s.i] !in "*\\"
    ensures Step(glob, o, s) == Go(AfterToken(o, s, glob[s.i..e]))
  {
    assert glob[s.i] == glob[ps..e][s.i - ps];
    LiteralStep(glob, o, s);
  }

  /** One step inside an ordinary piece consumes exactly its first token. */
  lemma PieceStep(glob: string, o: Options, s: State, ps: nat, e: nat)
    requires PieceScan(glob, o, s, ps, e) && s.i < e
    ensures Step(glob, o, s) == Go(AfterToken(o, s, glob[s.i..e]))
    ensures PieceScan(glob, o, AfterToken(o, s, glob[s.i..e]), ps, e)
  {
    TokenKeepsScan(glob, o, s, ps, e);
    if glob[s.i] == '*' {
      StarPieceStep(glob, o, s, ps, e);
    } else if glob[s.i] == '\\' {
      BackslashPieceStep(glob, o, s, ps, e);
    } else {
      LiteralPieceStep(glob, o, s, ps, e);
    }
  }

  /** After a token the scan is at the start of the next one. */
  lemma TokenKeepsScan(glob: string, o: Options, s: State, ps: nat, e: nat)
    requires PieceScan(glob, o, s, ps, e) && s.i < e
    ensures PieceScan(glob, o, AfterToken(o, s, glob[s.i..e]), ps, e)
  {
    var p := glob[s.i..e];
    var n := TokenLen(p);
    var j := s.i + n;
    if j < e {
      assert glob[j - 1] == p[n - 1] && glob[j] == p[n];
      if p[0] == '*' {
        assert p[n] != '*';
      } else {
        assert p[n - 1] != '*';
      }
    }
  }

  /** Appending a piece's translation is appending its first token's and
      then the rest's. */
  lemma TokenThenRest(o: Options, s: State, p: string, e: nat)
    requires p != []
    ensures
      var t := AfterToken(o, s, p);
      var rest := p[TokenLen(p)..];
      s.(i := e, reStr := s.reStr + Tr(o, p, true), segment := s.segment + Tr(o, p, false))
      == t.(i := e, reStr := t.reStr + Tr(o, rest, true), segment := t.segment + Tr(o, rest, false))
  {
    var rest := p[TokenLen(p)..];
    Regroup3(s.reStr, TokenText(o, p, true), Tr(o, rest, true));
    Regroup3(s.segment, TokenText(o, p, false), Tr(o, rest, false));
  }

  /** One token of an ordinary piece, as a step of the scan. */
  lemma PieceTokenStep(glob: string, o: Options, s: State, ps: nat, e: nat) returns (t: State)
    requires PieceScan(glob, o, s, ps, e) && s.i < e
    ensures t == AfterToken(o, s, glob[s.i..e]) && PieceScan(glob, o, t, ps, e) && s.i < t.i
    ensures glob[s.i..e][TokenLen(glob[s.i..e])..] == glob[t.i..e]
    ensures Run(glob, o, s) == Run(glob, o, t)
  {
    PieceStep(glob, o, s, ps, e);
    t := AfterToken(o, s, glob[s.i..e]);
    RunAfterStep(glob, o, s, t);
  }

  /** Scanning an ordinary piece from a token start appends the piece's
      translation to both buffers and changes nothing else. */
  lemma {:induction false} RunWithinPiece(glob: string, o: Options, s: State, ps: nat, e: nat)
    requires PieceScan(glob, o, s, ps, e)
    ensures Run(glob, o, s) == Run(glob, o, s.(i := e, reStr := s.reStr + Tr(o, glob[s.i..e], true),
                                               segment := s.segment + Tr(o, glob[s.i..e], false)))
    decreases e - s.i
  {
    var i := s.i;
    var p := glob[i..e];
    if i == e {
      assert p == [];
      assert s.(i := e, reStr := s.reStr + [], segment := s.segment + []) == s;
    } else {
      var t := PieceTokenStep(glob, o, s, ps, e);
      RunWithinPiece(glob, o, t, ps, e);
      TokenThenRest(o, s, p, e);
    }
  }

  /** The end of the piece that starts at `i`: the next `/`, or the end. */
  function PieceEnd(glob: string, i: nat): (e: nat)
    requires i <= |glob|
    ensures i <= e <= |glob| && '/' !in glob[i..e] && (e == |glob| || glob[e] == '/')
  {
    var e := i + FirstSlash(glob[i..]);
    assert glob[i..e] == glob[i..][..e - i];
    e
  }

  lemma SplitAt(glob: string, i: nat)
    requires i <= |glob|
    ensures PieceEnd(glob, i) == |glob| ==> Split(glob[i..]) == [glob[i..]]
    ensures PieceEnd(glob, i) < |glob| ==>
              Split(glob[i..]) == [glob[i..PieceEnd(glob, i)]] + Split(glob[PieceEnd(glob, i) + 1..])
  {
    var e := PieceEnd(glob, i);
    var g := glob[i..];
    var f := FirstSlash(g);
    assert f == e - i;
    SplitUnfold(g);
    SliceOfSlice(glob, i, e);
    if e < |glob| {
      var a, b := g[..f], g[f + 1..];
      assert Split(g) == [a] + Split(b);
      assert a == glob[i..e] && b == glob[e + 1..];
    }
  }

  lemma SliceOfSlice(glob: string, i: nat, e: nat)
    requires i <= e <= |glob|
    ensures glob[i..][..e - i] == glob[i..e]
    ensures e < |glob| ==> glob[i..][e - i + 1..] == glob[e + 1..]
    ensures e == |glob| ==> glob[i..] == glob[i..e]
  {
  }

  lemma SplitUnfold(g: string)
    ensures FirstSlash(g) == |g| ==> Split(g) == [g]
    ensures FirstSlash(g) < |g| ==> Split(g) == [g[..FirstSlash(g)]] + Split(g[FirstSlash(g) + 1..])
  {
    var e := FirstSlash(g);
    if e == |g| {
      assert Split(g) == [g];
    } else {
      var a, b := g[..e], g[e + 1..];
      assert Split(g) == [a] + Split(b);
    }
  }

  /** The pieces of `x` start with an empty one that is not the last exactly
      when `x` starts with `/`. */
  lemma SplitStartsEmpty(x: string)
    ensures (Split(x)[0] == [] && |Split(x)| >= 2) <==> (|x| > 0 && x[0] == '/')
  {
  }

  lemma GlobstarPieceRun(glob: string, o: Options, i: nat)
    requires i <= |glob| && (i == 0 || glob[i - 1] == '/')
    requires IsGlobstarPiece(o, glob[i..PieceEnd(glob, i)])
    ensures i < |glob| && glob[i] == '*' && o.globstar
    ensures RunEnd(glob, i) == PieceEnd(glob, i) && RunEnd(glob, i) - i > 1
  {
    var e := PieceEnd(glob, i);
    var p := glob[i..e];
    assert p[0] == '*';
  }

  /** The conditions under which a scan from the start of a piece follows the
      reference: outside extended and windows mode, between pieces. */
  predicate AtPieceStart(glob: string, o: Options, s: State) {
    && !o.extended && !o.windows && Plain(s) && s.segment == []
    && s.i <= |glob| && (s.i == 0 || glob[s.i - 1] == '/')
  }

  /** `r` is `s` with `body` appended to the whole pattern and `segs` filed
      after the segments already filed, counting the open one. */
  predicate Extends(s: State, r: State, body: string, segs: seq<string>, flags: string) {
    && r.reStr == s.reStr + body
    && r.segments + [Anchor(r.segment, flags)] == s.segments + segs
  }

  /** `r` is `s` after the pieces `ps`. */
  predicate Follows(o: Options, s: State, r: State, ps: seq<string>)
    requires |ps| >= 1
  {
    Extends(s, r, Body(o, ps), SegmentsOf(o, ps), o.flags)
  }

  lemma ExtendsChain(s: State, t: State, r: State, body1: string, segs1: seq<string>,
                     body2: string, segs2: seq<string>, flags: string)
    requires t.reStr == s.reStr + body1 && t.segments == s.segments + segs1
    requires Extends(t, r, body2, segs2, flags)
    ensures Extends(s, r, body1 + body2, segs1 + segs2, flags)
  {
  }

  lemma {:induction false} RunFromPieceStart(glob: string, o: Options, s: State)
    requires AtPieceStart(glob, o, s)
    ensures Run(glob, o, s).Go? && Follows(o, s, Run(glob, o, s).s, Split(glob[s.i..]))
    decreases |glob| - s.i, 2
  {
    if IsGlobstarPiece(o, glob[s.i..PieceEnd(glob, s.i)]) {
      RunFromGlobstarPiece(glob, o, s);
    } else {
      RunFromOrdinaryPiece(glob, o, s);
    }
  }

  /** The separator text after piece `p` when `rest` follows. */
  function SepText(o: Options, p: string, rest: seq<string>): string
    requires |rest| >= 1
  {
    if IsGlobstarPiece(o, p) then []
    else Esc('/') + (if rest[0] == [] && |rest| >= 2 && !o.strict then "?" else "")
  }

  /** The segment piece `p` files when a separator ends it. */
  function FiledText(o: Options, p: string): seq<string> {
    if TrPiece(o, p, false) == [] then [] else [Anchor(TrPiece(o, p, false), o.flags)]
  }

  lemma BodyCons(o: Options, p: string, rest: seq<string>)
    requires |rest| >= 1
    ensures Body(o, [p] + rest) == (TrPiece(o, p, true) + SepText(o, p, rest)) + Body(o, rest)
    ensures SegmentsOf(o, [p] + rest) == FiledText(o, p) + SegmentsOf(o, rest)
  {
    assert ([p] + rest)[1..] == rest;
  }

  /** A piece and the separator after it, followed by the rest. */
  lemma FollowsCons(o: Options, s: State, t: State, r: State, p: string, rest: seq<string>)
    requires |rest| >= 1
    requires t.reStr == s.reStr + (TrPiece(o, p, true) + SepText(o, p, rest))
    requires t.segments == s.segments + FiledText(o, p)
    requires Follows(o, t, r, rest)
    ensures Follows(o, s, r, [p] + rest)
  {
    BodyCons(o, p, rest);
    ExtendsChain(s, t, r, TrPiece(o, p, true) + SepText(o, p, rest), FiledText(o, p),
                 Body(o, rest), SegmentsOf(o, rest), o.flags);
  }

  lemma {:induction false} RunFromGlobstarPiece(glob: string, o: Options, s: State)
    requires AtPieceStart(glob, o, s) && IsGlobstarPiece(o, glob[s.i..PieceEnd(glob, s.i)])
    ensures Run(glob, o, s).Go? && Follows(o, s, Run(glob, o, s).s, Split(glob[s.i..]))
    decreases |glob| - s.i, 0
  {
    var e := PieceEnd(glob, s.i);
    var p := glob[s.i..e];
    SplitAt(glob, s.i);
    var t := GlobstarScan(glob, o, s);
    if e == |glob| {
      assert p == glob[s.i..];
      RunAtEnd(glob, o, t);
      GlobstarLast(o, s, t, p);
      assert Run(glob, o, s) == Go(t) && Split(glob[s.i..]) == [p];
    } else {
      var rest := Split(glob[e + 1..]);
      NextPieceStart(glob, o, s, t);
      assert glob[t.i..] == glob[e + 1..];
      RunFromPieceStart(glob, o, t);
      var r := Run(glob, o, t).s;
      GlobstarCons(o, s, t, r, p, rest);
      assert Run(glob, o, s) == Go(r) && Split(glob[s.i..]) == [p] + rest;
    }
  }

  /** The step over a globstar piece and the `/` after it, if any. */
  lemma GlobstarScan(glob: string, o: Options, s: State) returns (t: State)
    requires AtPieceStart(glob, o, s) && IsGlobstarPiece(o, glob[s.i..PieceEnd(glob, s.i)])
    ensures t.i == PieceEnd(glob, s.i) + 1 && Plain(t) && t.segment == []
    ensures t.reStr == s.reStr + GlobstarText && t.segments == s.segments + [Anchor(GlobstarText, o.flags)]
    ensures Run(glob, o, s) == Run(glob, o, t)
  {
    GlobstarPieceRun(glob, o, s.i);
    t := GlobstarScanStep(glob, o, s);
  }

  /** Past the `/` that ends a piece, the next piece starts. */
  lemma NextPieceStart(glob: string, o: Options, s: State, t: State)
    requires AtPieceStart(glob, o, s) && PieceEnd(glob, s.i) < |glob|
    requires t.i == PieceEnd(glob, s.i) + 1 && Plain(t) && t.segment == []
    ensures AtPieceStart(glob, o, t)
  {
  }

  lemma GlobstarScanStep(glob: string, o: Options, s: State) returns (t: State)
    requires AtPieceStart(glob, o, s) && s.i < |glob| && glob[s.i] == '*' && o.globstar
    requires RunEnd(glob, s.i) - s.i > 1 && (RunEnd(glob, s.i) == |glob| || glob[RunEnd(glob, s.i)] == '/')
    ensures t.i == RunEnd(glob, s.i) + 1 && Plain(t) && t.segment == []
    ensures t.reStr == s.reStr + GlobstarText && t.segments == s.segments + [Anchor(GlobstarText, o.flags)]
    ensures Run(glob, o, s) == Run(glob, o, t)
  {
    GlobstarStep(glob, o, s);
    t := Step(glob, o, s).s;
    RunAfterStep(glob, o, s, t);
    EmptyConcat(GlobstarText);
  }

  /** A final globstar piece files its segment and an empty one. */
  lemma GlobstarLast(o: Options, s: State, t: State, p: string)
    requires IsGlobstarPiece(o, p) && t.segment == []
    requires t.reStr == s.reStr + GlobstarText && t.segments == s.segments + [Anchor(GlobstarText, o.flags)]
    ensures Follows(o, s, t, [p])
  {
  }

  /** A globstar piece absorbs the separator after it. */
  lemma GlobstarCons(o: Options, s: State, t: State, r: State, p: string, rest: seq<string>)
    requires |rest| >= 1 && IsGlobstarPiece(o, p)
    requires t.reStr == s.reStr + GlobstarText && t.segments == s.segments + [Anchor(GlobstarText, o.flags)]
    requires Follows(o, t, r, rest)
    ensures Follows(o, s, r, [p] + rest)
  {
    assert GlobstarText != [];
    assert TrPiece(o, p, true) + SepText(o, p, rest) == GlobstarText;
    FollowsCons(o, s, t, r, p, rest);
  }

  lemma {:induction false} RunFromOrdinaryPiece(glob: string, o: Options, s: State)
    requires AtPieceStart(glob, o, s) && !IsGlobstarPiece(o, glob[s.i..PieceEnd(glob, s.i)])
    ensures Run(glob, o, s).Go? && Follows(o, s, Run(glob, o, s).s, Split(glob[s.i..]))
    decreases |glob| - s.i, 1
  {
    var e := PieceEnd(glob, s.i);
    var p := glob[s.i..e];
    var ps := Split(glob[s.i..]);
    SplitAt(glob, s.i);
    if e == |glob| {
      assert p == glob[s.i..];
      assert ps == [p];
      var u := OrdinaryScan(glob, o, s);
      LastPiece(glob, o, s, u, p);
      assert Run(glob, o, s) == Go(u);
    } else {
      var rest := Split(glob[e + 1..]);
      assert ps == [p] + rest;
      var u := OrdinaryScan(glob, o, s);
      RunFromSeparator(glob, o, s, u, p, e);
      var r := Run(glob, o, u).s;
      assert Run(glob, o, s) == Go(r);
    }
  }

  /** The scan over an ordinary piece, up to the `/` or the end after it. */
  lemma OrdinaryScan(glob: string, o: Options, s: State) returns (u: State)
    requires AtPieceStart(glob, o, s) && !IsGlobstarPiece(o, glob[s.i..PieceEnd(glob, s.i)])
    ensures
      var p := glob[s.i..PieceEnd(glob, s.i)];
      u == s.(i := PieceEnd(glob, s.i), reStr := s.reStr + Tr(o, p, true), segment := Tr(o, p, false))
    ensures Run(glob, o, s) == Run(glob, o, u)
  {
    var e := PieceEnd(glob, s.i);
    var p := glob[s.i..e];
    RunWithinPiece(glob, o, s, s.i, e);
    u := s.(i := e, reStr := s.reStr + Tr(o, p, true), segment := s.segment + Tr(o, p, false));
    assert s.segment + Tr(o, p, false) == Tr(o, p, false);
  }

  /** The last piece: the scan ends after it. */
  lemma LastPiece(glob: string, o: Options, s: State, u: State, p: string)
    requires AtPieceStart(glob, o, s) && PieceEnd(glob, s.i) == |glob| && p == glob[s.i..]
    requires !IsGlobstarPiece(o, p)
    requires u == s.(i := |glob|, reStr := s.reStr + Tr(o, p, true), segment := Tr(o, p, false))
    ensures Follows(o, s, u, [p])
    ensures Run(glob, o, u) == Go(u)
  {
    RunAtEnd(glob, o, u);
  }

  /** After an ordinary piece that a `/` ends, the separator step and the
      rest of the scan. */
  lemma {:induction false} RunFromSeparator(glob: string, o: Options, s: State, u: State, p: string, e: nat)
    requires AtPieceStart(glob, o, s) && e == PieceEnd(glob, s.i) < |glob|
    requires p == glob[s.i..e] && !IsGlobstarPiece(o, p)
    requires u == s.(i := e, reStr := s.reStr + Tr(o, p, true), segment := Tr(o, p, false))
    ensures Run(glob, o, u).Go? && Follows(o, s, Run(glob, o, u).s, [p] + Split(glob[e + 1..]))
    decreases |glob| - s.i, 0
  {
    var t := AfterSeparator(glob, o, s, u, p, e);
    RunFromPieceStart(glob, o, t);
    FollowsCons(o, s, t, Run(glob, o, t).s, p, Split(glob[e + 1..]));
  }

  /** The separator step after an ordinary piece. */
  lemma AfterSeparator(glob: string, o: Options, s: State, u: State, p: string, e: nat) returns (t: State)
    requires AtPieceStart(glob, o, s) && e == PieceEnd(glob, s.i) < |glob|
    requires p == glob[s.i..e] && !IsGlobstarPiece(o, p)
    requires u == s.(i := e, reStr := s.reStr + Tr(o, p, true), segment := Tr(o, p, false))
    ensures AtPieceStart(glob, o, t) && t.i == e + 1 && Run(glob, o, u) == Run(glob, o, t)
    ensures t.reStr == s.reStr + (TrPiece(o, p, true) + SepText(o, p, Split(glob[e + 1..])))
    ensures t.segments == s.segments + FiledText(o, p)
  {
    var rest := Split(glob[e + 1..]);
    SplitStartsEmpty(glob[e + 1..]);
    var q := if NextIs(glob, e, '/') && !o.strict then "?" else "";
    assert SepText(o, p, rest) == Esc('/') + q;
    SlashStep(glob, o, u);
    t := Step(glob, o, u).s;
    RunAfterStep(glob, o, u, t);
    Regroup4(s.reStr, Tr(o, p, true), Esc('/'), q);
  }

  lemma EmptyConcat<T>(x: seq<T>)
    ensures [] + x == x
  {
  }

  lemma Regroup3(a: string, b: string, c: string)
    ensures a + (b + c) == a + b + c
  {
  }

  lemma Regroup4(a: string, b: string, c: string, d: string)
    ensures a + b + c + d == a + (b + (c + d))
  {
  }

  /** Outside extended and windows mode the scan computes the reference:
      the body of the glob's pieces, anchored unless the flags hold `g`, and
      one segment per non-empty piece plus the last. */
  lemma PlainTranslation(glob: string, o: Options)
    requires !o.extended && !o.windows
    ensures Compile(glob, o) == Compiled(Anchor(Body(o, Split(glob)), o.flags), SegmentsOf(o, Split(glob)), o.flags)
  {
    assert glob[0..] == glob;
    RunFromPieceStart(glob, o, Start);
    var t := Run(glob, o, Start).s;
    var body, segs := Body(o, Split(glob)), SegmentsOf(o, Split(glob));
    assert Extends(Start, t, body, segs, o.flags);
    EmptyConcat(body);
    EmptyConcat(segs);
    assert t.reStr == body && t.segments + [Anchor(t.segment, o.flags)] == segs;
    assert Compile(glob, o) == Compiled(Anchor(t.reStr, o.flags), t.segments + [Anchor(t.segment, o.flags)], o.flags);
  }

  /** Only the empty piece translates to nothing, so empty pieces are the
      ones that file no segment. */
  lemma TrEmpty(o: Options, p: string, inBody: bool)
    ensures Tr(o, p, inBody) == [] <==> p == []
  {
  }

  function NonEmptyCount(ps: seq<string>): nat {
    if ps == [] then 0 else (if ps[0] == [] then 0 else 1) + NonEmptyCount(ps[1..])
  }

  /** One segment per non-empty piece before the last, one for the last, and
      one more when the last is a globstar piece. */
  lemma {:induction false} SegmentCount(o: Options, ps: seq<string>)
    requires |ps| >= 1
    ensures |SegmentsOf(o, ps)|
            == NonEmptyCount(ps[..|ps| - 1]) + 1 + (if IsGlobstarPiece(o, ps[|ps| - 1]) then 1 else 0)
    decreases |ps|
  {
    if |ps| > 1 {
      SegmentCount(o, ps[1..]);
      assert ps[1..][..|ps| - 2] == ps[..|ps| - 1][1..];
      TrEmpty(o, ps[0], false);
      assert TrPiece(o, ps[0], false) == [] <==> ps[0] == [];
    }
  }

  /** Outside extended and windows mode, repeated separators file no empty
      segments: the glob has as many segments as non-empty pieces before the
      last, plus the last, plus one after a trailing globstar. */
  lemma SegmentsPerPiece(glob: string, o: Options)
    requires !o.extended && !o.windows
    ensures Compile(glob, o).Compiled?
    ensures
      var ps := Split(glob);
      |Compile(glob, o).segments|
      == NonEmptyCount(ps[..|ps| - 1]) + 1 + (if IsGlobstarPiece(o, ps[|ps| - 1]) then 1 else 0)
  {
    PlainTranslation(glob, o);
    SegmentCount(o, Split(glob));
  }
}
