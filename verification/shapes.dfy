/** The path-segment behaviour on whole families of globs: repeated
    separators and a globstar between two names. `a` and `b` stand for any
    names without `*`, `\` and `/`. */
module Shapes {
  import opened Config
  import opened Globrex
  import opened ScanProps
  import opened Rules
  import opened PathSegments
  import opened Literals

  predicate Name(a: string) {
    '*' !in a && '\\' !in a && '/' !in a
  }

  lemma SplitCons(p: string, rest: string)
    requires '/' !in p
    ensures Split(p + "/" + rest) == [p] + Split(rest)
  {
    var g := p + "/" + rest;
    assert g == p + ("/" + rest);
    FirstSlashOfPiece(p, "/" + rest);
    assert g[..|p|] == p;
    assert g[|p| + 1..] == rest;
  }

  lemma SplitPiece(p: string)
    requires '/' !in p
    ensures Split(p) == [p]
  {
    FirstSlashOfPiece(p, []);
    assert p + [] == p;
  }

  lemma NameIsOrdinary(o: Options, a: string)
    requires Name(a)
    ensures !IsGlobstarPiece(o, a)
    ensures TrPiece(o, a, true) == EscapeAll(a) && TrPiece(o, a, false) == EscapeAll(a)
  {
    if |a| >= 2 {
      assert a[0] in a;
    }
    TrOfLiteralPiece(o, a, true);
    TrOfLiteralPiece(o, a, false);
  }

  lemma SplitDoubled(a: string, b: string)
    requires Name(a) && Name(b)
    ensures Split(a + "//" + b) == [a, [], b]
  {
    assert a + "//" + b == a + "/" + ([] + "/" + b);
    SplitPiece(b);
    SplitCons([], b);
    SplitCons(a, [] + "/" + b);
  }

  lemma PiecesDoubled(a: string, b: string, o: Options)
    requires Name(a) && Name(b) && a != []
    ensures Body(o, [a, [], b]) == EscapeAll(a) + Esc('/') + (if o.strict then "" else "?") + Esc('/') + EscapeAll(b)
    ensures SegmentsOf(o, [a, [], b]) == [Anchor(EscapeAll(a), o.flags), Anchor(EscapeAll(b), o.flags)]
  {
    BodyDoubled(a, b, o);
    SegmentsDoubled(a, b, o);
  }

  lemma BodyDoubled(a: string, b: string, o: Options)
    requires Name(a) && Name(b) && a != []
    ensures Body(o, [a, [], b]) == EscapeAll(a) + Esc('/') + (if o.strict then "" else "?") + Esc('/') + EscapeAll(b)
  {
    var q := if o.strict then "" else "?";
    NameIsOrdinary(o, a);
    BodyAfterEmpty(b, o);
    assert [a, [], b] == [a] + [[], b];
    assert SepText(o, a, [[], b]) == Esc('/') + q;
    BodyCons(o, a, [[], b]);
    Regroup3(EscapeAll(a), Esc('/'), q);
    Regroup3(EscapeAll(a) + Esc('/') + q, Esc('/'), EscapeAll(b));
  }

  /** An empty piece then a name: just the separator and the name. */
  lemma BodyAfterEmpty(b: string, o: Options)
    requires Name(b)
    ensures Body(o, [[], b]) == Esc('/') + EscapeAll(b)
  {
    NameIsOrdinary(o, b);
    NameIsOrdinary(o, []);
    assert [[], b] == [[]] + [b];
    assert SepText(o, [], [b]) == Esc('/');
    BodyCons(o, [], [b]);
  }

  lemma SegmentsDoubled(a: string, b: string, o: Options)
    requires Name(a) && Name(b) && a != []
    ensures SegmentsOf(o, [a, [], b]) == [Anchor(EscapeAll(a), o.flags), Anchor(EscapeAll(b), o.flags)]
  {
    NameIsOrdinary(o, a);
    NameIsOrdinary(o, b);
    NameIsOrdinary(o, []);
    assert [a, [], b] == [a] + [[], b] && [[], b] == [[]] + [b];
    BodyCons(o, [], [b]);
    BodyCons(o, a, [[], b]);
  }

  /** `a//b`: the doubled separator is `\/?\/` unless strict, and the empty
      piece between the two files no segment. */
  lemma DoubledSeparator(a: string, b: string, o: Options)
    requires !o.extended && !o.windows && Name(a) && Name(b) && a != []
    ensures Compile(a + "//" + b, o)
            == Compiled(Anchor(EscapeAll(a) + Esc('/') + (if o.strict then "" else "?") + Esc('/') + EscapeAll(b), o.flags),
                        [Anchor(EscapeAll(a), o.flags), Anchor(EscapeAll(b), o.flags)], o.flags)
  {
    SplitDoubled(a, b);
    PiecesDoubled(a, b, o);
    PlainTranslation(a + "//" + b, o);
  }

  lemma SplitGlobstar(a: string, b: string)
    requires Name(a) && Name(b)
    ensures Split(a + "/**/" + b) == [a, "**", b]
  {
    assert a + "/**/" + b == a + "/" + ("**" + "/" + b);
    SplitPiece(b);
    SplitCons("**", b);
    SplitCons(a, "**" + "/" + b);
  }

  lemma PiecesGlobstar(a: string, b: string, o: Options)
    requires o.globstar && Name(a) && Name(b) && a != []
    ensures Body(o, [a, "**", b]) == EscapeAll(a) + Esc('/') + GlobstarText + EscapeAll(b)
    ensures SegmentsOf(o, [a, "**", b])
            == [Anchor(EscapeAll(a), o.flags), Anchor(GlobstarText, o.flags), Anchor(EscapeAll(b), o.flags)]
  {
    BodyGlobstar(a, b, o);
    SegmentsGlobstar(a, b, o);
  }

  lemma BodyGlobstar(a: string, b: string, o: Options)
    requires o.globstar && Name(a) && Name(b) && a != []
    ensures Body(o, [a, "**", b]) == EscapeAll(a) + Esc('/') + GlobstarText + EscapeAll(b)
  {
    var A, B, rest := EscapeAll(a), EscapeAll(b), ["**", b];
    NameIsOrdinary(o, a);
    BodyAfterGlobstar(b, o);
    assert SepText(o, a, rest) == Esc('/') by {
      assert rest[0] != [];
    }
    assert [a, "**", b] == [a] + rest;
    BodyCons(o, a, rest);
    assert Body(o, [a, "**", b]) == (A + Esc('/')) + (GlobstarText + B);
    Regroup3(A + Esc('/'), GlobstarText, B);
  }

  /** A globstar piece then a name: no separator between them. */
  lemma BodyAfterGlobstar(b: string, o: Options)
    requires o.globstar && Name(b)
    ensures Body(o, ["**", b]) == GlobstarText + EscapeAll(b)
  {
    NameIsOrdinary(o, b);
    assert IsGlobstarPiece(o, "**");
    assert ["**", b] == ["**"] + [b];
    BodyCons(o, "**", [b]);
  }

  lemma SegmentsGlobstar(a: string, b: string, o: Options)
    requires o.globstar && Name(a) && Name(b) && a != []
    ensures SegmentsOf(o, [a, "**", b])
            == [Anchor(EscapeAll(a), o.flags), Anchor(GlobstarText, o.flags), Anchor(EscapeAll(b), o.flags)]
  {
    NameIsOrdinary(o, a);
    NameIsOrdinary(o, b);
    assert IsGlobstarPiece(o, "**");
    assert [a, "**", b] == [a] + ["**", b] && ["**", b] == ["**"] + [b];
    BodyCons(o, "**", [b]);
    BodyCons(o, a, ["**", b]);
    assert SegmentsOf(o, ["**", b]) == [Anchor(GlobstarText, o.flags), Anchor(EscapeAll(b), o.flags)];
  }

  /** `a/**/b` under globstar: the globstar absorbs the separator after it
      and files a segment of its own between those of `a` and `b`. */
  lemma GlobstarBetween(a: string, b: string, o: Options)
    requires !o.extended && !o.windows && o.globstar && Name(a) && Name(b) && a != []
    ensures Compile(a + "/**/" + b, o)
            == Compiled(Anchor(EscapeAll(a) + Esc('/') + GlobstarText + EscapeAll(b), o.flags),
                        [Anchor(EscapeAll(a), o.flags), Anchor(GlobstarText, o.flags), Anchor(EscapeAll(b), o.flags)],
                        o.flags)
  {
    SplitGlobstar(a, b);
    PiecesGlobstar(a, b, o);
    PlainTranslation(a + "/**/" + b, o);
  }

  /** The separator in windows mode: one backslash, or two. */
  function WinSep(doubled: bool): string {
    if doubled then "\\\\" else "\\"
  }

  lemma WinGlobFacts(a: string, b: string, doubled: bool)
    requires Name(a) && Name(b)
    ensures
      var g := a + WinSep(doubled) + b;
      var n := |WinSep(doubled)|;
      && |g| == |a| + n + |b| && g[0..|a|] == a && g[|a| + n..] == b
      && g[|a|] == '\\' && NextIs(g, |a|, '\\') == doubled
      && forall k :: 0 <= k < |a| ==> g[k] !in "*\\/"
  {
    var g := a + WinSep(doubled) + b;
    var n := |WinSep(doubled)|;
    assert g == a + (WinSep(doubled) + b);
    assert forall k :: 0 <= k < |a| ==> g[k] == a[k] && a[k] in a;
    if !doubled && |a| + 1 < |g| {
      assert g[|a| + 1] == b[0];
      assert b[0] in b;
    }
  }

  lemma WinTail(a: string, b: string, doubled: bool)
    ensures (a + WinSep(doubled) + b)[|a| + |WinSep(doubled)|..] == b
  {
  }

  lemma WinStep(g: string, o: Options, s1: State, a: string, doubled: bool)
    requires o.windows && s1.i < |g| && g[s1.i] == '\\' && NextIs(g, s1.i, '\\') == doubled && Plain(s1)
    requires s1.segments == [] && s1.segment == EscapeAll(a) && a != []
    ensures Step(g, o, s1)
            == Go(s1.(i := s1.i + |WinSep(doubled)|, reStr := s1.reStr + BackslashText + (if doubled && !o.strict then "?" else ""),
                      segment := [], segments := [Anchor(EscapeAll(a), o.flags)]))
  {
    BackslashStep(g, o, s1);
  }

  /** The scan state just after the separator. */
  function WinMid(a: string, o: Options, doubled: bool): State {
    Start.(i := |a| + |WinSep(doubled)|,
           reStr := EscapeAll(a) + BackslashText + (if doubled && !o.strict then "?" else ""),
           segment := [], segments := [Anchor(EscapeAll(a), o.flags)])
  }

  lemma WinFirstHalf(a: string, b: string, o: Options, doubled: bool)
    requires !o.extended && o.windows && Name(a) && Name(b) && a != []
    ensures Run(a + WinSep(doubled) + b, o, Start) == Run(a + WinSep(doubled) + b, o, WinMid(a, o, doubled))
  {
    var g := a + WinSep(doubled) + b;
    WinGlobFacts(a, b, doubled);
    RunName(g, o, Start, |a|);
    var s1 := Start.(i := |a|, reStr := [] + EscapeAll(a), segment := [] + EscapeAll(a));
    assert [] + EscapeAll(a) == EscapeAll(a);
    WinStep(g, o, s1, a, doubled);
    assert Step(g, o, s1) == Go(WinMid(a, o, doubled));
    RunAfterStep(g, o, s1, WinMid(a, o, doubled));
  }

  lemma WinSecondHalf(a: string, b: string, o: Options, doubled: bool)
    requires !o.extended && Name(b)
    ensures
      var g := a + WinSep(doubled) + b;
      var t := WinMid(a, o, doubled);
      Run(g, o, t) == Go(t.(i := |g|, reStr := t.reStr + EscapeAll(b), segment := t.segment + EscapeAll(b)))
  {
    WinTail(a, b, doubled);
    RunNameToEnd(a + WinSep(doubled) + b, o, WinMid(a, o, doubled), b);
  }

  lemma WindowsRun(a: string, b: string, o: Options, doubled: bool)
    requires !o.extended && o.windows && Name(a) && Name(b) && a != []
    ensures
      var g := a + WinSep(doubled) + b;
      var q := if doubled && !o.strict then "?" else "";
      Run(g, o, Start)
      == Go(Start.(i := |g|, reStr := EscapeAll(a) + BackslashText + q + EscapeAll(b), segment := EscapeAll(b),
                   segments := [Anchor(EscapeAll(a), o.flags)]))
  {
    WinFirstHalf(a, b, o, doubled);
    WinSecondHalf(a, b, o, doubled);
    assert [] + EscapeAll(b) == EscapeAll(b);
  }

  /** In windows mode `a\b` files `a` and `b` as segments and the separator
      matches one or more backslashes; a doubled backslash adds `?` unless
      strict and still files no empty segment. */
  lemma WindowsSeparator(a: string, b: string, o: Options, doubled: bool)
    requires !o.extended && o.windows && Name(a) && Name(b) && a != []
    ensures
      var q := if doubled && !o.strict then "?" else "";
      Compile(a + WinSep(doubled) + b, o)
      == Compiled(Anchor(EscapeAll(a) + BackslashText + q + EscapeAll(b), o.flags),
                  [Anchor(EscapeAll(a), o.flags), Anchor(EscapeAll(b), o.flags)], o.flags)
  {
    WindowsRun(a, b, o, doubled);
  }
}
