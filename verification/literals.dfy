/** Globs with no wildcards: what the translation does to text that should
    match itself, and that the escaping it applies can be undone. */
module Literals {
  import opened Config
  import opened Globrex
  import opened ScanProps
  import opened Rules
  import opened PathSegments

  /** Every character translated on its own outside extended mode. */
  function EscapeAll(g: string): (r: string)
    ensures |g| <= |r| <= 2 * |g|
  {
    if g == [] then [] else Literal(g[0]) + EscapeAll(g[1..])
  }

  /** Drop the backslash in front of each escaped character. */
  function Unescape(x: string): string
    decreases |x|
  {
    if x == [] then []
    else if x[0] == '\\' && |x| > 1 then [x[1]] + Unescape(x[2..])
    else [x[0]] + Unescape(x[1..])
  }

  /** Escaping loses nothing: a glob without backslashes comes back from its
      escaped text. */
  lemma {:induction false} UnescapeEscapeAll(g: string)
    requires '\\' !in g
    ensures Unescape(EscapeAll(g)) == g
    decreases |g|
  {
    if g != [] {
      var c := g[0];
      assert c != '\\';
      assert forall d :: d in g[1..] ==> d in g;
      UnescapeEscapeAll(g[1..]);
      var rest := EscapeAll(g[1..]);
      if Escaped(c) {
        assert (Esc(c) + rest)[2..] == rest;
      } else {
        assert ([c] + rest)[1..] == rest;
      }
    }
  }

  /** A piece without `*` and `\` translates character by character. */
  lemma {:induction false} TrOfLiteralPiece(o: Options, p: string, inBody: bool)
    requires '*' !in p && '\\' !in p
    ensures Tr(o, p, inBody) == EscapeAll(p)
    decreases |p|
  {
    if p != [] {
      assert p[0] in p;
      assert forall d :: d in p[1..] ==> d in p;
      TrOfLiteralPiece(o, p[1..], inBody);
    }
  }

  /** Outside extended mode a glob without `*`, `\` and `/` becomes its
      escaped text, as the whole pattern and as its only segment. */
  lemma LiteralGlob(glob: string, o: Options)
    requires !o.extended
    requires '*' !in glob && '\\' !in glob && '/' !in glob
    ensures Compile(glob, o) == Compiled(Anchor(EscapeAll(glob), o.flags), [Anchor(EscapeAll(glob), o.flags)], o.flags)
  {
    assert glob[0..] == glob;
    RunNameToEnd(glob, o, Start, glob);
    var t := Start.(i := |glob|, reStr := [] + EscapeAll(glob), segment := [] + EscapeAll(glob));
    assert Run(glob, o, Start) == Go(t);
    assert [] + EscapeAll(glob) == EscapeAll(glob);
    assert Compile(glob, o) == Compiled(Anchor(t.reStr, o.flags), t.segments + [Anchor(t.segment, o.flags)], o.flags);
  }

  /** A character with no rule of its own in any mode. */
  predicate Verbatim(c: char) {
    c !in "$^.=\\/()|+@!?[]{},*"
  }

  lemma VerbatimThenRest(glob: string, s: State, t: State)
    requires s.i < |glob| && t == s.(i := s.i + 1, reStr := s.reStr + [glob[s.i]], segment := s.segment + [glob[s.i]])
    ensures s.(i := |glob|, reStr := s.reStr + glob[s.i..], segment := s.segment + glob[s.i..])
            == t.(i := |glob|, reStr := t.reStr + glob[t.i..], segment := t.segment + glob[t.i..])
  {
    assert glob[s.i..] == [glob[s.i]] + glob[s.i + 1..];
  }

  lemma {:induction false} RunVerbatim(glob: string, o: Options, s: State)
    requires s.i <= |glob| && forall k :: s.i <= k < |glob| ==> Verbatim(glob[k])
    ensures Run(glob, o, s) == Go(s.(i := |glob|, reStr := s.reStr + glob[s.i..], segment := s.segment + glob[s.i..]))
    decreases |glob| - s.i
  {
    if s.i == |glob| {
      assert glob[s.i..] == [];
      assert s.(i := |glob|, reStr := s.reStr + [], segment := s.segment + []) == s;
    } else {
      OrdinaryStep(glob, o, s);
      var t := Emitted(s, [glob[s.i]], 1).s;
      RunAfterStep(glob, o, s, t);
      RunVerbatim(glob, o, t);
      VerbatimThenRest(glob, s, t);
    }
  }

  /** In every mode, a glob of characters with no rule of their own
      translates to itself: it is the whole pattern and its only segment. */
  lemma VerbatimGlob(glob: string, o: Options)
    requires forall k :: 0 <= k < |glob| ==> Verbatim(glob[k])
    ensures Compile(glob, o) == Compiled(Anchor(glob, o.flags), [Anchor(glob, o.flags)], o.flags)
  {
    RunVerbatim(glob, o, Start);
    assert glob[0..] == glob;
    var t := Start.(i := |glob|, reStr := [] + glob, segment := [] + glob);
    assert Run(glob, o, Start) == Go(t);
    assert [] + glob == glob;
    assert Compile(glob, o) == Compiled(Anchor(t.reStr, o.flags), t.segments + [Anchor(t.segment, o.flags)], o.flags);
  }

  /** A stretch of the glob without `*`, `\` and `/` is scanned character by
      character outside extended mode, whatever the other options. */
  lemma {:induction false} RunName(glob: string, o: Options, s: State, e: nat)
    requires !o.extended && Plain(s) && s.i <= e <= |glob|
    requires forall k :: s.i <= k < e ==> glob[k] !in "*\\/"
    ensures Run(glob, o, s)
            == Run(glob, o, s.(i := e, reStr := s.reStr + EscapeAll(glob[s.i..e]), segment := s.segment + EscapeAll(glob[s.i..e])))
    decreases e - s.i
  {
    if s.i == e {
      assert glob[s.i..e] == [];
      assert s.(i := e, reStr := s.reStr + [], segment := s.segment + []) == s;
    } else {
      LiteralStep(glob, o, s);
      var t := Emitted(s, Literal(glob[s.i]), 1).s;
      RunAfterStep(glob, o, s, t);
      RunName(glob, o, t, e);
      NameThenRest(glob, s, t, e);
    }
  }

  /** The scan of a final stretch without `*`, `\\` and `/`. */
  lemma RunNameToEnd(glob: string, o: Options, s: State, name: string)
    requires !o.extended && Plain(s) && s.i <= |glob| && glob[s.i..] == name
    requires '*' !in name && '\\' !in name && '/' !in name
    ensures Run(glob, o, s)
            == Go(s.(i := |glob|, reStr := s.reStr + EscapeAll(name), segment := s.segment + EscapeAll(name)))
  {
    NameStretch(glob, s.i, name);
    RunName(glob, o, s, |glob|);
    var u := s.(i := |glob|, reStr := s.reStr + EscapeAll(name), segment := s.segment + EscapeAll(name));
    assert Run(glob, o, s) == Run(glob, o, u);
    RunAtEnd(glob, o, u);
  }

  lemma NameStretch(glob: string, i: nat, name: string)
    requires i <= |glob| && glob[i..] == name
    requires '*' !in name && '\\' !in name && '/' !in name
    ensures glob[i..|glob|] == name
    ensures forall k :: i <= k < |glob| ==> glob[k] !in "*\\/"
  {
    assert forall k :: i <= k < |glob| ==> glob[k] == name[k - i] && name[k - i] in name;
  }

  lemma NameThenRest(glob: string, s: State, t: State, e: nat)
    requires s.i < e <= |glob|
    requires t == s.(i := s.i + 1, reStr := s.reStr + Literal(glob[s.i]), segment := s.segment + Literal(glob[s.i]))
    ensures s.(i := e, reStr := s.reStr + EscapeAll(glob[s.i..e]), segment := s.segment + EscapeAll(glob[s.i..e]))
            == t.(i := e, reStr := t.reStr + EscapeAll(glob[t.i..e]), segment := t.segment + EscapeAll(glob[t.i..e]))
  {
    assert glob[s.i..e][1..] == glob[t.i..e];
  }
}
