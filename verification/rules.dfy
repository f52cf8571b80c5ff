/** The translation table, one rule per lemma: what a single step of the scan
    does for each kind of character, stated in terms of the two buffers, the
    marker stack, the flags and the position where the scan resumes. */
module Rules {
  import opened Config
  import opened Globrex
  import opened ScanProps

  /** `s` extended by `str` in both buffers, resuming `k` characters on. */
  function Emitted(s: State, str: string, k: nat): Next {
    Go(s.(i := s.i + k, reStr := s.reStr + str, segment := s.segment + str))
  }

  // Outside extended mode: everything but `*`, `\` and `/` is one character
  // that is passed through or escaped.

  lemma PlainMetaStep(glob: string, o: Options, s: State)
    requires s.i < |glob| && !o.extended && Plain(s) && glob[s.i] in "$^.=()|+"
    ensures Step(glob, o, s) == Emitted(s, Esc(glob[s.i]), 1)
  {
  }

  lemma PlainFallthroughStep(glob: string, o: Options, s: State)
    requires s.i < |glob| && !o.extended && Plain(s) && glob[s.i] in "@!?[]{},"
    ensures Step(glob, o, s) == Emitted(s, Esc(glob[s.i]), 1)
  {
    var c := glob[s.i];
    if c in "@!?" {
      assert CaseOpenBracket(glob, o, s, c) == Emitted(s, Esc(c), 1);
    }
  }

  /** Outside extended mode, with nothing on the stack and no flag set, a
      character other than `*`, `\` and `/` becomes `Literal(c)` in both
      buffers and the scan moves to the next character. */
  lemma LiteralStep(glob: string, o: Options, s: State)
    requires s.i < |glob| && !o.extended && Plain(s) && glob[s.i] !in "*\\/"
    ensures Step(glob, o, s) == Emitted(s, Literal(glob[s.i]), 1)
  {
    var c := glob[s.i];
    if c in "$^.=()|+" {
      PlainMetaStep(glob, o, s);
    } else if c in "@!?[]{}," {
      PlainFallthroughStep(glob, o, s);
    } else {
      OrdinaryStep(glob, o, s);
    }
  }

  /** `$ ^ . =` are escaped in every mode and state. */
  lemma MetaStep(glob: string, o: Options, s: State)
    requires s.i < |glob| && glob[s.i] in "$^.="
    ensures Step(glob, o, s) == Emitted(s, Esc(glob[s.i]), 1)
  {
  }

  /** Any character with no rule of its own passes through unchanged. */
  lemma OrdinaryStep(glob: string, o: Options, s: State)
    requires s.i < |glob| && glob[s.i] !in "$^.=\\/()|+@!?[]{},*"
    ensures Step(glob, o, s) == Emitted(s, [glob[s.i]], 1)
  {
  }

  // Separators.

  /** Outside windows mode `/` emits `\/` and closes the segment, filing it
      when its text is non-empty; `?` follows in the whole pattern only, when
      the next character is `/` too and the mode is not strict. */
  lemma SlashStep(glob: string, o: Options, s: State)
    requires s.i < |glob| && glob[s.i] == '/' && !o.windows
    ensures Step(glob, o, s).Go?
    ensures
      var t := Step(glob, o, s).s;
      && t.i == s.i + 1
      && t.reStr == s.reStr + Esc('/') + (if NextIs(glob, s.i, '/') && !o.strict then "?" else "")
      && t.segment == []
      && t.segments == s.segments + (if s.segment == [] then [] else [Anchor(s.segment, o.flags)])
      && t.ext == s.ext && t.inGroup == s.inGroup && t.inRange == s.inRange
  {
  }

  /** In windows mode `/` is an ordinary escaped character, not a boundary. */
  lemma WindowsSlashStep(glob: string, o: Options, s: State)
    requires s.i < |glob| && glob[s.i] == '/' && o.windows
    ensures Step(glob, o, s).Go?
    ensures
      var t := Step(glob, o, s).s;
      && t.i == s.i + 1
      && t.reStr == s.reStr + Esc('/') + (if NextIs(glob, s.i, '/') && !o.strict then "?" else "")
      && t.segment == s.segment + Esc('/')
      && t.segments == s.segments
      && t.ext == s.ext && t.inGroup == s.inGroup && t.inRange == s.inRange
  {
  }

  /** `\` emits `\\+` (one or more backslashes), closing the segment in
      windows mode only; a directly following `\` is swallowed, and then `?`
      is added to the whole pattern unless strict. */
  lemma BackslashStep(glob: string, o: Options, s: State)
    requires s.i < |glob| && glob[s.i] == '\\'
    ensures Step(glob, o, s).Go?
    ensures
      var t := Step(glob, o, s).s;
      var doubled := NextIs(glob, s.i, '\\');
      && t.i == s.i + (if doubled then 2 else 1)
      && t.reStr == s.reStr + BackslashText + (if doubled && !o.strict then "?" else "")
      && (o.windows ==> t.segment == []
                        && t.segments == s.segments + (if s.segment == [] then [] else [Anchor(s.segment, o.flags)]))
      && (!o.windows ==> t.segment == s.segment + BackslashText && t.segments == s.segments)
      && t.ext == s.ext && t.inGroup == s.inGroup && t.inRange == s.inRange
  {
  }

  // Star runs.

  /** Without globstar, a maximal run of `*` not opening an extglob group
      emits `.*` whatever its length and position, and the scan resumes
      after the run. */
  lemma StarStep(glob: string, o: Options, s: State)
    requires s.i < |glob| && glob[s.i] == '*' && !(o.extended && NextIs(glob, s.i, '(')) && !o.globstar
    ensures Step(glob, o, s) == Emitted(s, ".*", RunEnd(glob, s.i) - s.i)
  {
    assert Step(glob, o, s) == CaseStar(glob, o, s);
  }

  /** With globstar, a run that is not a whole segment of two or more stars
      matches within one segment. */
  lemma SegmentStarStep(glob: string, o: Options, s: State)
    requires s.i < |glob| && glob[s.i] == '*' && !(o.extended && NextIs(glob, s.i, '(')) && o.globstar
    requires !IsGlobstar(glob, s.i, RunEnd(glob, s.i))
    ensures Step(glob, o, s) == Emitted(s, StarText, RunEnd(glob, s.i) - s.i)
  {
    assert Step(glob, o, s) == CaseStar(glob, o, s);
  }

  /** With globstar, a run of two or more stars preceded by `/` or the start
      and followed by `/` or the end matches any number of whole segments: it
      closes the segment with the fragment included and skips the character
      after the run. */
  lemma GlobstarStep(glob: string, o: Options, s: State)
    requires s.i < |glob| && glob[s.i] == '*' && o.globstar
    requires RunEnd(glob, s.i) - s.i > 1 && (s.i == 0 || glob[s.i - 1] == '/')
    requires RunEnd(glob, s.i) == |glob| || glob[RunEnd(glob, s.i)] == '/'
    ensures Step(glob, o, s).Go?
    ensures
      var t := Step(glob, o, s).s;
      && t.i == RunEnd(glob, s.i) + 1
      && t.reStr == s.reStr + GlobstarText
      && t.segment == []
      && t.segments == s.segments + [Anchor(s.segment + GlobstarText, o.flags)]
      && t.ext == s.ext && t.inGroup == s.inGroup && t.inRange == s.inRange
  {
    assert glob[s.i + 1] == '*';
    assert IsGlobstar(glob, s.i, RunEnd(glob, s.i));
    assert Step(glob, o, s) == CaseStar(glob, o, s);
  }

  // Extglob groups (extended mode).

  /** `+(`, `@(`, `?(` and `*(` push their marker and emit nothing; the `(`
      is handled by the next step. */
  lemma ExtglobOpenStep(glob: string, o: Options, s: State)
    requires s.i < |glob| && o.extended && glob[s.i] in "+@?*" && NextIs(glob, s.i, '(')
    ensures Step(glob, o, s) == Go(s.(i := s.i + 1, ext := s.ext + [MarkerOf(glob[s.i])]))
  {
  }

  /** In extended mode a `+` or `!` that does not open a group, the `!` outside
      a bracket class, is escaped. */
  lemma LoneMarkerStep(glob: string, o: Options, s: State)
    requires s.i < |glob| && o.extended && glob[s.i] in "+!" && !NextIs(glob, s.i, '(')
    requires glob[s.i] == '!' ==> !s.inRange
    ensures Step(glob, o, s) == Emitted(s, Esc(glob[s.i]), 1)
  {
  }

  /** `!(` outside a bracket class pushes `!`, emits a negative lookahead
      opener and consumes the `(`. */
  lemma NegationOpenStep(glob: string, o: Options, s: State)
    requires s.i < |glob| && o.extended && !s.inRange && glob[s.i] == '!' && NextIs(glob, s.i, '(')
    ensures Step(glob, o, s) == Emitted(s.(ext := s.ext + [Bang]), "(?!", 2)
  {
  }

  /** `)` with a marker on the stack emits `)` and the marker's closing text,
      and pops it; with an empty stack it is escaped. */
  lemma GroupCloseStep(glob: string, o: Options, s: State)
    requires s.i < |glob| && glob[s.i] == ')'
    ensures s.ext != [] ==>
              var m := s.ext[|s.ext| - 1];
              Step(glob, o, s) == Emitted(s.(ext := s.ext[..|s.ext| - 1]), ")" + CloseText(m), 1)
    ensures s.ext == [] ==> Step(glob, o, s) == Emitted(s, Esc(')'), 1)
  {
  }

  /** `(` and `|` are raw inside an extglob group and escaped outside one. */
  lemma GroupInnerStep(glob: string, o: Options, s: State)
    requires s.i < |glob| && glob[s.i] in "(|"
    ensures Step(glob, o, s) == Emitted(s, if s.ext != [] then [glob[s.i]] else Esc(glob[s.i]), 1)
  {
  }

  /** In extended mode a `?` not opening a group matches any one character. */
  lemma QuestionStep(glob: string, o: Options, s: State)
    requires s.i < |glob| && o.extended && glob[s.i] == '?' && !NextIs(glob, s.i, '(')
    ensures Step(glob, o, s) == Emitted(s, ".", 1)
  {
  }

  // Braces and brackets (extended mode).

  lemma BraceStep(glob: string, o: Options, s: State)
    requires s.i < |glob| && o.extended && glob[s.i] in "{},"
    ensures glob[s.i] == '{' ==> Step(glob, o, s) == Emitted(s.(inGroup := true), "(", 1)
    ensures glob[s.i] == '}' ==> Step(glob, o, s) == Emitted(s.(inGroup := false), ")", 1)
    ensures glob[s.i] == ',' ==> Step(glob, o, s) == Emitted(s, if s.inGroup then "|" else Esc(','), 1)
  {
  }

  /** `[` opens a bracket class and `]` closes it, both passed through raw;
      inside one, `!` negates the class. */
  lemma BracketStep(glob: string, o: Options, s: State)
    requires s.i < |glob| && o.extended && glob[s.i] in "[]!"
    requires glob[s.i] == '[' ==> !(s.inRange && NextIs(glob, s.i, ':'))
    ensures glob[s.i] == '[' ==> Step(glob, o, s) == Emitted(s.(inRange := true), "[", 1)
    ensures glob[s.i] == ']' ==> Step(glob, o, s) == Emitted(s.(inRange := false), "]", 1)
    ensures glob[s.i] == '!' && s.inRange ==> Step(glob, o, s) == Emitted(s, "^", 1)
  {
  }

  /** An `@` that does not open a group falls through to the `!` rule: it
      negates a bracket class it is inside, and is escaped elsewhere. */
  lemma LoneAtStep(glob: string, o: Options, s: State)
    requires s.i < |glob| && o.extended && glob[s.i] == '@' && !NextIs(glob, s.i, '(')
    ensures Step(glob, o, s) == Emitted(s, if s.inRange then "^" else Esc('@'), 1)
  {
  }

  /** `[:name:]` inside a bracket class emits the class for `alnum`, `space`
      or `digit` and nothing for another name, and resumes two characters
      after the closing `:`, whatever the character after that `:` is. */
  lemma PosixClassStep(glob: string, o: Options, s: State, q: nat)
    requires s.i < |glob| && o.extended && glob[s.i] == '[' && s.inRange && NextIs(glob, s.i, ':')
    requires s.i + 2 <= q < |glob| && glob[q] == ':' && ':' !in glob[s.i + 2..q]
    ensures Step(glob, o, s) == Emitted(s, PosixText(glob[s.i + 2..q]), q + 2 - s.i)
  {
  }
}
