/** Properties of whole scans: what the extended option switches on, when the
    scan can fail to return a result, and what the regex flags change. */
module ScanProps {
  import opened Config
  import opened Globrex

  /** The state of a scan that never used extended syntax: empty marker
      stack, outside braces and brackets. */
  predicate Plain(s: State) {
    s.ext == [] && !s.inGroup && !s.inRange
  }

  /** A scan at or past the end is over. */
  lemma RunAtEnd(glob: string, o: Options, s: State)
    requires |glob| <= s.i <= |glob| + 1
    ensures Run(glob, o, s) == Go(s)
  {
  }

  /** A scan that takes one step to `t` goes on from `t`. */
  lemma RunAfterStep(glob: string, o: Options, s: State, t: State)
    requires s.i < |glob| && Step(glob, o, s) == Go(t)
    ensures Run(glob, o, s) == Run(glob, o, t)
  {
  }

  /** Without `extended` nothing is ever pushed and neither flag is set. */
  lemma StepKeepsPlain(glob: string, o: Options, s: State)
    requires s.i < |glob| && !o.extended && Plain(s)
    ensures Step(glob, o, s).Go? && Plain(Step(glob, o, s).s)
  {
  }

  lemma {:induction false} RunKeepsPlain(glob: string, o: Options, s: State)
    requires s.i <= |glob| + 1 && !o.extended && Plain(s)
    ensures Run(glob, o, s).Go? && Plain(Run(glob, o, s).s)
    decreases |glob| + 1 - s.i
  {
    if s.i < |glob| {
      StepKeepsPlain(glob, o, s);
      RunKeepsPlain(glob, o, Step(glob, o, s).s);
    }
  }

  /** Without `extended` every pattern translates: the scan always ends. */
  lemma NonExtendedNeverHangs(glob: string, o: Options)
    requires !o.extended
    ensures Compile(glob, o).Compiled?
  {
    RunKeepsPlain(glob, o, Start);
  }

  /** The scan fails to return only on a POSIX class opener `[:`, in
      extended mode, with no `:` anywhere after it. */
  lemma HangsOnlyOnUnclosedPosixClass(glob: string, o: Options)
    ensures Compile(glob, o).Hangs? ==>
              var at := Compile(glob, o).at;
              && o.extended && at + 1 < |glob| && glob[at] == '[' && glob[at + 1] == ':'
              && ':' !in glob[at + 2..]
  {
    if !o.extended {
      NonExtendedNeverHangs(glob, o);
    }
  }

  /** Where the call hangs, the scan from the start reached that position
      inside a bracket class: with `HangsOnlyOnUnclosedPosixClass`, this is
      the precondition of `ReachedUnclosedPosixHangs`. */
  lemma HangIsReached(glob: string, o: Options)
    requires Compile(glob, o).Hangs?
    ensures exists n: nat :: Steps(glob, o, Start, n).Go? && Steps(glob, o, Start, n).s.i == Compile(glob, o).at
                             && Steps(glob, o, Start, n).s.inRange
  {
    StuckIsReached(glob, o, Start);
  }

  /** A scan from `s` that gets stuck does so at a state it reached, inside
      a bracket class. */
  lemma {:induction false} StuckIsReached(glob: string, o: Options, s: State)
    requires s.i <= |glob| + 1 && Run(glob, o, s).Stuck?
    ensures exists n: nat :: Steps(glob, o, s, n).Go? && Steps(glob, o, s, n).s.i == Run(glob, o, s).at
                             && Steps(glob, o, s, n).s.inRange
    decreases |glob| + 1 - s.i
  {
    match Step(glob, o, s)
    case Stuck(at) =>
      assert Steps(glob, o, s, 0) == Go(s);
    case Go(t) =>
      StuckIsReached(glob, o, t);
      var n: nat :| Steps(glob, o, t, n).Go? && Steps(glob, o, t, n).s.i == Run(glob, o, t).at
                    && Steps(glob, o, t, n).s.inRange;
      assert Steps(glob, o, s, n + 1) == Steps(glob, o, t, n);
  }

  /** The scan after at most `n` steps from `s`: where it is then, or where
      it stopped earlier. */
  function Steps(glob: string, o: Options, s: State, n: nat): (r: Next)
    requires s.i <= |glob| + 1
    ensures r.Go? ==> s.i <= r.s.i <= |glob| + 1
    ensures r.Go? && r.s.i < |glob| ==> s.i + n <= r.s.i
    decreases n
  {
    if n == 0 || s.i >= |glob| then Go(s)
    else
      match Step(glob, o, s)
      case Stuck(at) => Stuck(at)
      case Go(t) => Steps(glob, o, t, n - 1)
  }

  /** The scan from `s` is the scan from any state that `s` reaches. */
  lemma {:induction false} RunThroughSteps(glob: string, o: Options, s: State, n: nat)
    requires s.i <= |glob| + 1 && Steps(glob, o, s, n).Go?
    ensures Run(glob, o, s) == Run(glob, o, Steps(glob, o, s, n).s)
    decreases n
  {
    if n != 0 && s.i < |glob| {
      var r := Step(glob, o, s);
      assert r.Go?;
      var t := r.s;
      assert Steps(glob, o, s, n) == Steps(glob, o, t, n - 1);
      RunAfterStep(glob, o, s, t);
      RunThroughSteps(glob, o, t, n - 1);
    }
  }

  /** A POSIX class opener inside a bracket class, with no `:` after it, is
      where a step never returns. */
  lemma UnclosedPosixStep(glob: string, o: Options, s: State)
    requires s.i < |glob| && glob[s.i] == '[' && s.inRange && NextIs(glob, s.i, ':')
    requires ':' !in glob[s.i + 2..]
    ensures Step(glob, o, s) == Stuck(s.i)
  {
    assert FindColon(glob, s.i + 2) == None;
  }

  /** The converse of `HangsOnlyOnUnclosedPosixClass`: once the scan reaches a
      `[` inside a bracket class, followed by `:` with no `:` after it, the
      call never returns, and it hangs at that `[`. */
  lemma ReachedUnclosedPosixHangs(glob: string, o: Options, n: nat, t: State)
    requires Steps(glob, o, Start, n) == Go(t)
    requires t.i < |glob| && glob[t.i] == '[' && t.inRange && NextIs(glob, t.i, ':')
    requires ':' !in glob[t.i + 2..]
    ensures Compile(glob, o) == Hangs(t.i)
  {
    RunThroughSteps(glob, o, Start, n);
    UnclosedPosixStep(glob, o, t);
  }

  /** For instance, in extended mode a bracket class that opens a POSIX class
      with no `:` after it never returns, stuck on the second `[`. */
  lemma UnclosedPosixClassHangs(x: string, o: Options)
    requires o.extended && ':' !in x
    ensures Compile("[[:" + x, o) == Hangs(1)
  {
    var glob := "[[:" + x;
    assert glob[0] == '[' && glob[1] == '[' && glob[2] == ':' && glob[3..] == x;
    var t := Start.(i := 1, reStr := "[", segment := "[", inRange := true);
    assert Step(glob, o, Start) == Go(t);
    assert FindColon(glob, 3) == None;
    assert Step(glob, o, t) == Stuck(1);
    RunAfterStep(glob, o, Start, t);
  }

  /** `t` is the state `s` reached under different flags: the same scan, with
      every filed segment anchored as `flags` ask (`s` is scanned under flags
      holding `g`, so its segments are bare). */
  predicate AnchoredTwin(s: State, t: State, flags: string) {
    && t.i == s.i && t.reStr == s.reStr && t.segment == s.segment
    && t.ext == s.ext && t.inGroup == s.inGroup && t.inRange == s.inRange
    && |t.segments| == |s.segments|
    && forall k :: 0 <= k < |s.segments| ==> t.segments[k] == Anchor(s.segments[k], flags)
  }

  /** Two outcomes of the same step or scan, one under flags holding `g`
      and one under flags without it. */
  predicate TwinNext(a: Next, b: Next, flags: string) {
    && (a.Stuck? <==> b.Stuck?)
    && (a.Stuck? ==> a.at == b.at)
    && (a.Go? ==> AnchoredTwin(a.s, b.s, flags))
  }

  lemma EmitTwin(flags: string, s: State, t: State, str: string)
    requires AnchoredTwin(s, t, flags)
    ensures AnchoredTwin(Emit(s, str), Emit(t, str), flags)
  {
  }

  lemma CommaTwin(o: Options, flags: string, s: State, t: State, c: char)
    requires AnchoredTwin(s, t, flags)
    ensures TwinNext(CaseComma(s, c), CaseComma(t, c), flags)
    ensures TwinNext(CaseCloseBrace(o, s, c), CaseCloseBrace(o, t, c), flags)
    ensures TwinNext(CaseOpenBrace(o, s, c), CaseOpenBrace(o, t, c), flags)
    ensures TwinNext(CaseCloseBracket(o, s, c), CaseCloseBracket(o, t, c), flags)
  {
  }

  lemma BracketTwin(glob: string, o: Options, flags: string, s: State, t: State, c: char)
    requires s.i < |glob| && AnchoredTwin(s, t, flags)
    ensures TwinNext(CaseOpenBracket(glob, o, s, c), CaseOpenBracket(glob, o, t, c), flags)
  {
    if s.inRange && NextIs(glob, s.i, ':') {
      PosixTwin(glob, flags, s, t);
    } else if o.extended {
      EmitTwin(flags, s.(inRange := true), t.(inRange := true), [c]);
    } else {
      CommaTwin(o, flags, s, t, c);
    }
  }

  lemma PosixTwin(glob: string, flags: string, s: State, t: State)
    requires NextIs(glob, s.i, ':') && AnchoredTwin(s, t, flags)
    ensures TwinNext(PosixClass(glob, s), PosixClass(glob, t), flags)
  {
    match FindColon(glob, s.i + 2)
    case None =>
    case Some(q) =>
      EmitTwin(flags, s, t, PosixText(glob[s.i + 2..q]));
  }

  lemma BangTwin(glob: string, o: Options, flags: string, s: State, t: State, c: char)
    requires s.i < |glob| && c in "@!" && AnchoredTwin(s, t, flags)
    ensures TwinNext(CaseQuestion(glob, o, s, c), CaseQuestion(glob, o, t, c), flags)
    ensures TwinNext(CaseBang(glob, o, s, c), CaseBang(glob, o, t, c), flags)
    ensures c == '@' ==> TwinNext(CaseAt(glob, o, s), CaseAt(glob, o, t), flags)
  {
    BracketTwin(glob, o, flags, s, t, c);
  }

  lemma CloseTwin(flags: string, s: State, t: State)
    requires AnchoredTwin(s, t, flags)
    ensures TwinNext(CaseClose(s), CaseClose(t), flags)
  {
  }

  lemma StarTwin(glob: string, o: Options, flags: string, s: State, t: State)
    requires s.i < |glob| && glob[s.i] == '*' && !Anchored(o.flags) && AnchoredTwin(s, t, flags)
    ensures TwinNext(CaseStar(glob, o, s), CaseStar(glob, o.(flags := flags), t), flags)
  {
    var e := RunEnd(glob, s.i);
    if NextIs(glob, s.i, '(') && o.extended {
    } else if !o.globstar {
      EmitTwin(flags, s, t, ".*");
    } else if IsGlobstar(glob, s.i, e) {
      AddTwin(flags, s, t, o.flags, GlobstarText, true, true);
    } else {
      EmitTwin(flags, s, t, StarText);
    }
  }

  lemma AddTwin(flags: string, s: State, t: State, raw: string, str: string, split: bool, addLastPart: bool)
    requires !Anchored(raw) && AnchoredTwin(s, t, flags)
    ensures AnchoredTwin(Add(s, raw, str, split, addLastPart), Add(t, flags, str, split, addLastPart), flags)
  {
    var a := Add(s, raw, str, split, addLastPart);
    var b := Add(t, flags, str, split, addLastPart);
    if split {
      var closing := if addLastPart then s.segment + str else s.segment;
      if closing != [] {
        assert a.segments[|s.segments|] == closing;
      }
    }
  }

  lemma BackslashStepTwin(glob: string, o: Options, flags: string, s: State, t: State)
    requires s.i < |glob| && !Anchored(o.flags) && AnchoredTwin(s, t, flags)
    requires glob[s.i] == '\\'
    ensures TwinNext(Step(glob, o, s), Step(glob, o.(flags := flags), t), flags)
  {
    AddTwin(flags, s, t, o.flags, BackslashText, o.windows, false);
  }

  lemma SlashStepTwin(glob: string, o: Options, flags: string, s: State, t: State)
    requires s.i < |glob| && !Anchored(o.flags) && AnchoredTwin(s, t, flags)
    requires glob[s.i] == '/'
    ensures TwinNext(Step(glob, o, s), Step(glob, o.(flags := flags), t), flags)
  {
    AddTwin(flags, s, t, o.flags, Esc('/'), !o.windows, false);
  }

  lemma StarStepTwin(glob: string, o: Options, flags: string, s: State, t: State)
    requires s.i < |glob| && !Anchored(o.flags) && AnchoredTwin(s, t, flags)
    requires glob[s.i] == '*'
    ensures TwinNext(Step(glob, o, s), Step(glob, o.(flags := flags), t), flags)
  {
    StarTwin(glob, o, flags, s, t);
  }

  lemma BangStepTwin(glob: string, o: Options, flags: string, s: State, t: State)
    requires s.i < |glob| && !Anchored(o.flags) && AnchoredTwin(s, t, flags)
    requires glob[s.i] in "@!"
    ensures TwinNext(Step(glob, o, s), Step(glob, o.(flags := flags), t), flags)
  {
    BangTwin(glob, o, flags, s, t, glob[s.i]);
    BangTwin(glob, o.(flags := flags), flags, s, t, glob[s.i]);
  }

  lemma QuestionStepTwin(glob: string, o: Options, flags: string, s: State, t: State)
    requires s.i < |glob| && !Anchored(o.flags) && AnchoredTwin(s, t, flags)
    requires glob[s.i] == '?'
    ensures TwinNext(Step(glob, o, s), Step(glob, o.(flags := flags), t), flags)
  {
    BracketTwin(glob, o, flags, s, t, '?');
    BracketTwin(glob, o.(flags := flags), flags, s, t, '?');
  }

  lemma OpenBracketStepTwin(glob: string, o: Options, flags: string, s: State, t: State)
    requires s.i < |glob| && !Anchored(o.flags) && AnchoredTwin(s, t, flags)
    requires glob[s.i] == '['
    ensures TwinNext(Step(glob, o, s), Step(glob, o.(flags := flags), t), flags)
  {
    BracketTwin(glob, o, flags, s, t, '[');
    BracketTwin(glob, o.(flags := flags), flags, s, t, '[');
  }

  lemma CommaStepTwin(glob: string, o: Options, flags: string, s: State, t: State)
    requires s.i < |glob| && !Anchored(o.flags) && AnchoredTwin(s, t, flags)
    requires glob[s.i] in "]{},"
    ensures TwinNext(Step(glob, o, s), Step(glob, o.(flags := flags), t), flags)
  {
    CommaTwin(o, flags, s, t, glob[s.i]);
    CommaTwin(o.(flags := flags), flags, s, t, glob[s.i]);
  }

  lemma EscapeStepTwin(glob: string, o: Options, flags: string, s: State, t: State)
    requires s.i < |glob| && !Anchored(o.flags) && AnchoredTwin(s, t, flags)
    requires glob[s.i] in "$^.="
    ensures TwinNext(Step(glob, o, s), Step(glob, o.(flags := flags), t), flags)
  {
    EmitTwin(flags, s, t, Esc(glob[s.i]));
  }

  lemma OpenParenStepTwin(glob: string, o: Options, flags: string, s: State, t: State)
    requires s.i < |glob| && !Anchored(o.flags) && AnchoredTwin(s, t, flags)
    requires glob[s.i] == '('
    ensures TwinNext(Step(glob, o, s), Step(glob, o.(flags := flags), t), flags)
  {
    EmitTwin(flags, s, t, Esc(glob[s.i]));
    EmitTwin(flags, s, t, [glob[s.i]]);
  }

  lemma CloseParenStepTwin(glob: string, o: Options, flags: string, s: State, t: State)
    requires s.i < |glob| && !Anchored(o.flags) && AnchoredTwin(s, t, flags)
    requires glob[s.i] == ')'
    ensures TwinNext(Step(glob, o, s), Step(glob, o.(flags := flags), t), flags)
  {
    CloseTwin(flags, s, t);
  }

  lemma BarStepTwin(glob: string, o: Options, flags: string, s: State, t: State)
    requires s.i < |glob| && !Anchored(o.flags) && AnchoredTwin(s, t, flags)
    requires glob[s.i] == '|'
    ensures TwinNext(Step(glob, o, s), Step(glob, o.(flags := flags), t), flags)
  {
    EmitTwin(flags, s, t, Esc(glob[s.i]));
    EmitTwin(flags, s, t, [glob[s.i]]);
  }

  lemma PlusStepTwin(glob: string, o: Options, flags: string, s: State, t: State)
    requires s.i < |glob| && !Anchored(o.flags) && AnchoredTwin(s, t, flags)
    requires glob[s.i] == '+'
    ensures TwinNext(Step(glob, o, s), Step(glob, o.(flags := flags), t), flags)
  {
    EmitTwin(flags, s, t, Esc(glob[s.i]));
  }

  lemma LiteralStepTwin(glob: string, o: Options, flags: string, s: State, t: State)
    requires s.i < |glob| && !Anchored(o.flags) && AnchoredTwin(s, t, flags)
    requires glob[s.i] !in "$^.=\\/()|+@!?[]{},*"
    ensures TwinNext(Step(glob, o, s), Step(glob, o.(flags := flags), t), flags)
  {
    EmitTwin(flags, s, t, [glob[s.i]]);
  }

  /** One step under flags with and without `g` keeps the two states twins. */
  lemma StepTwin(glob: string, o: Options, flags: string, s: State, t: State)
    requires s.i < |glob| && !Anchored(o.flags) && AnchoredTwin(s, t, flags)
    ensures TwinNext(Step(glob, o, s), Step(glob, o.(flags := flags), t), flags)
  {
    var c := glob[s.i];
    if c == '\\' {
      BackslashStepTwin(glob, o, flags, s, t);
    } else if c == '/' {
      SlashStepTwin(glob, o, flags, s, t);
    } else if c == '*' {
      StarStepTwin(glob, o, flags, s, t);
    } else if c in "@!" {
      BangStepTwin(glob, o, flags, s, t);
    } else if c == '?' {
      QuestionStepTwin(glob, o, flags, s, t);
    } else if c == '[' {
      OpenBracketStepTwin(glob, o, flags, s, t);
    } else if c in "]{}," {
      CommaStepTwin(glob, o, flags, s, t);
    } else if c in "$^.=" {
      EscapeStepTwin(glob, o, flags, s, t);
    } else if c == '(' {
      OpenParenStepTwin(glob, o, flags, s, t);
    } else if c == ')' {
      CloseParenStepTwin(glob, o, flags, s, t);
    } else if c == '|' {
      BarStepTwin(glob, o, flags, s, t);
    } else if c == '+' {
      PlusStepTwin(glob, o, flags, s, t);
    } else {
      LiteralStepTwin(glob, o, flags, s, t);
    }
  }

  lemma {:induction false} RunTwin(glob: string, o: Options, flags: string, s: State, t: State)
    requires s.i <= |glob| + 1 && !Anchored(o.flags) && AnchoredTwin(s, t, flags)
    ensures TwinNext(Run(glob, o, s), Run(glob, o.(flags := flags), t), flags)
    decreases |glob| + 1 - s.i
  {
    if s.i < |glob| {
      StepTwin(glob, o, flags, s, t);
      var a := Step(glob, o, s);
      if a.Go? {
        RunTwin(glob, o, flags, a.s, Step(glob, o.(flags := flags), t).s);
      }
    }
  }

  /** The regex flags change nothing but anchoring: the translation under any
      flags is the translation under `g` with the string and every segment
      passed through `Anchor`, so without `g` everything is wrapped in `^…$`
      and with `g` nothing is. */
  lemma FlagsOnlyAnchor(glob: string, o: Options)
    ensures
      var raw := Compile(glob, o.(flags := "g"));
      var r := Compile(glob, o);
      && (r.Hangs? <==> raw.Hangs?)
      && (r.Hangs? ==> r.at == raw.at)
      && (r.Compiled? ==>
            && r.flags == o.flags
            && r.str == Anchor(raw.str, o.flags)
            && |r.segments| == |raw.segments|
            && forall k :: 0 <= k < |r.segments| ==> r.segments[k] == Anchor(raw.segments[k], o.flags))
  {
    var g := o.(flags := "g");
    RunTwin(glob, g, o.flags, Start, Start);
    assert o == g.(flags := o.flags);
  }
}
