/** The `extended` option only changes how extglob, brace and bracket syntax
    is read: a glob that uses none of it translates the same either way. */
module ExtglobFree {
  import opened Config
  import opened Globrex
  import opened ScanProps
  import opened Rules

  /** The characters whose rule depends on `extended`. */
  predicate ExtglobChar(c: char) {
    c in "()|+@!?[]{},"
  }

  predicate NoExtglobSyntax(glob: string) {
    forall k :: 0 <= k < |glob| ==> !ExtglobChar(glob[k])
  }

  lemma StarIgnoresExtended(glob: string, o: Options, s: State)
    requires s.i < |glob| && glob[s.i] == '*' && NoExtglobSyntax(glob)
    ensures Step(glob, o.(extended := true), s) == Step(glob, o.(extended := false), s)
  {
    assert Step(glob, o.(extended := true), s) == CaseStar(glob, o.(extended := true), s);
    assert Step(glob, o.(extended := false), s) == CaseStar(glob, o.(extended := false), s);
  }

  lemma SeparatorIgnoresExtended(glob: string, o: Options, s: State)
    requires s.i < |glob| && glob[s.i] in "\\/"
    ensures Step(glob, o.(extended := true), s) == Step(glob, o.(extended := false), s)
  {
  }

  lemma OtherIgnoresExtended(glob: string, o: Options, s: State)
    requires s.i < |glob| && glob[s.i] !in "\\/*" && !ExtglobChar(glob[s.i])
    ensures Step(glob, o.(extended := true), s) == Step(glob, o.(extended := false), s)
  {
  }

  /** One step over a character outside the extglob syntax does not depend
      on `extended`. */
  lemma StepIgnoresExtended(glob: string, o: Options, s: State)
    requires s.i < |glob| && NoExtglobSyntax(glob)
    ensures Step(glob, o.(extended := true), s) == Step(glob, o.(extended := false), s)
  {
    assert !ExtglobChar(glob[s.i]);
    if glob[s.i] == '*' {
      StarIgnoresExtended(glob, o, s);
    } else if glob[s.i] in "\\/" {
      SeparatorIgnoresExtended(glob, o, s);
    } else {
      OtherIgnoresExtended(glob, o, s);
    }
  }

  lemma {:induction false} RunIgnoresExtended(glob: string, o: Options, s: State)
    requires s.i <= |glob| + 1 && NoExtglobSyntax(glob)
    ensures Run(glob, o.(extended := true), s) == Run(glob, o.(extended := false), s)
    decreases |glob| + 1 - s.i
  {
    if s.i < |glob| {
      StepIgnoresExtended(glob, o, s);
      var n := Step(glob, o.(extended := false), s);
      if n.Go? {
        RunIgnoresExtended(glob, o, n.s);
      }
    }
  }

  /** A glob without extglob, brace or bracket characters compiles the same
      with and without `extended`. */
  lemma ExtendedIrrelevant(glob: string, o: Options)
    requires NoExtglobSyntax(glob)
    ensures Compile(glob, o.(extended := true)) == Compile(glob, o.(extended := false))
  {
    RunIgnoresExtended(glob, o, Start);
  }
}
