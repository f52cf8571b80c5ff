/** The translator: one left-to-right scan over the glob with one character of
    lookahead. The scan state is a record that every step replaces; the
    `switch` in `globrex` is a chain of `Case…` functions, one per `case`
    label, where falling through to the next label is calling the next
    function. */
module Globrex {
  import opened Config

  datatype Option<T> = None | Some(value: T)

  /** Scan state: the position `i`, the whole-pattern buffer `reStr`, the
      current segment buffer, the finished (already anchored) segments, the
      extglob marker stack and the brace and bracket flags. */
  datatype State = State(i: nat, reStr: string, segment: string, segments: seq<string>,
                         ext: seq<Marker>, inGroup: bool, inRange: bool)

  const Start := State(0, [], [], [], [], false, false)

  /** One step either continues with a new state or never returns a result:
      the POSIX-class name scan never returns one when no `:` follows. */
  datatype Next = Go(s: State) | Stuck(at: nat)

  /** What a call produces: the pattern string, the segment pattern strings
      and the flags; or the position where the scan would never return. */
  datatype Outcome = Compiled(str: string, segments: seq<string>, flags: string) | Hangs(at: nat)

  /** Matches one path segment's worth of characters. */
  const StarText := "([^/]*)"
  /** Matches zero or more whole path segments. */
  const GlobstarText := "((?:[^/]*(?:/|$))*)"
  /** One or more backslashes. */
  const BackslashText := "\\\\+"

  /** The `add(str, split, addLastPart)` helper. Every call appends `str` to
      the whole pattern. Without `split` it also extends the current segment;
      with `split` it closes the segment (taking `str` along when
      `addLastPart`), files it only when its text is non-empty, and starts
      an empty one. */
  function Add(s: State, flags: string, str: string, split: bool, addLastPart: bool): (r: State)
    ensures r.reStr == s.reStr + str
    ensures !split ==> r.segment == s.segment + str && r.segments == s.segments
    ensures split ==> r.segment == []
    ensures split ==>
              var closing := if addLastPart then s.segment + str else s.segment;
              && (closing == [] ==> r.segments == s.segments)
              && (closing != [] ==> r.segments == s.segments + [Anchor(closing, flags)])
    ensures r.i == s.i && r.ext == s.ext && r.inGroup == s.inGroup && r.inRange == s.inRange
  {
    if split then
      var closing := if addLastPart then s.segment + str else s.segment;
      var filed := if closing != [] then s.segments + [Anchor(closing, flags)] else s.segments;
      s.(reStr := s.reStr + str, segment := [], segments := filed)
    else
      s.(reStr := s.reStr + str, segment := s.segment + str)
  }

  /** `add(str)`: no segment boundary. */
  function Emit(s: State, str: string): State {
    Add(s, [], str, false, false)
  }

  function Push(s: State, m: Marker): State {
    s.(ext := s.ext + [m])
  }

  /** Continue `k` characters further on. */
  function Skip(s: State, k: nat): Next {
    Go(s.(i := s.i + k))
  }

  /** A step that moves forward to at most `limit` and only extends the
      buffers and the filed segments. */
  predicate Forward(s: State, r: Next, limit: nat) {
    r.Go? ==> s.i < r.s.i <= limit && s.reStr <= r.s.reStr && s.segments <= r.s.segments
  }

  /** A segment filed before the end of the scan: anchored when the flags
      say so, and never empty. */
  predicate Filed(seg: string, flags: string) {
    if Anchored(flags) then |seg| >= 3 && seg[0] == '^' && seg[|seg| - 1] == '$' else seg != []
  }

  /** Every segment filed between state `s` and the outcome `r` is `Filed`. */
  predicate FilesNonEmpty(s: State, r: Next, flags: string) {
    r.Go? && s.segments <= r.s.segments ==>
      forall k :: |s.segments| <= k < |r.s.segments| ==> Filed(r.s.segments[k], flags)
  }

  /** A step that can get stuck only at `s.i`, on a `:` following it inside a
      bracket class, with no `:` after that. */
  predicate StuckOnPosix(glob: string, s: State, r: Next) {
    r.Stuck? ==> r.at == s.i && s.inRange && NextIs(glob, s.i, ':') && ':' !in glob[s.i + 2..]
  }

  /** `glob[i + 1] === d`. */
  predicate NextIs(glob: string, i: nat, d: char) {
    i + 1 < |glob| && glob[i + 1] == d
  }

  /** The index just past the maximal run of `*` that starts at `i`. */
  function RunEnd(glob: string, i: nat): (j: nat)
    requires i < |glob| && glob[i] == '*'
    ensures i < j <= |glob|
    ensures forall k :: i <= k < j ==> glob[k] == '*'
    ensures j == |glob| || glob[j] != '*'
    decreases |glob| - i
  {
    if NextIs(glob, i, '*') then RunEnd(glob, i + 1) else i + 1
  }

  /** The first `:` at or after `k`, if there is one. */
  function FindColon(glob: string, k: nat): (r: Option<nat>)
    requires k <= |glob|
    ensures r.Some? ==> k <= r.value < |glob| && glob[r.value] == ':' && ':' !in glob[k..r.value]
    ensures r.None? ==> ':' !in glob[k..]
    decreases |glob| - k
  {
    if k == |glob| then None
    else if glob[k] == ':' then Some(k)
    else
      var r := FindColon(glob, k + 1);
      assert r.Some? ==> glob[k..r.value] == [glob[k]] + glob[k + 1..r.value];
      assert glob[k..] == [glob[k]] + glob[k + 1..];
      r
  }

  /** The bracket-internal text for a POSIX class name; unknown names add nothing. */
  function PosixText(name: string): string {
    if name == "alnum" then "(\\w|\\d)"
    else if name == "space" then "\\s"
    else if name == "digit" then "\\d"
    else ""
  }

  /** `[:name:]` inside a bracket class: skip `[`, read the name up to the next
      `:`, emit its class, and skip one more character, assumed to be `]`. */
  function PosixClass(glob: string, s: State): (r: Next)
    requires NextIs(glob, s.i, ':')
    ensures Forward(s, r, |glob| + 1)
    ensures r.Stuck? ==> r.at == s.i && ':' !in glob[s.i + 2..]
    ensures r.Go? ==> r.s.segments == s.segments
  {
    match FindColon(glob, s.i + 2)
    case None => Stuck(s.i)
    case Some(q) => Go(Emit(s, PosixText(glob[s.i + 2..q])).(i := q + 2))
  }

  // The fallthrough chain, from `case ','` back to `case '@'`.

  function CaseComma(s: State, c: char): (r: Next)
    ensures Forward(s, r, s.i + 1) && r.Go? && r.s.segments == s.segments
  {
    if s.inGroup then Skip(Emit(s, "|"), 1) else Skip(Emit(s, Esc(c)), 1)
  }

  function CaseCloseBrace(o: Options, s: State, c: char): (r: Next)
    ensures Forward(s, r, s.i + 1) && r.Go? && r.s.segments == s.segments
  {
    if o.extended then Skip(Emit(s.(inGroup := false), ")"), 1) else CaseComma(s, c)
  }

  function CaseOpenBrace(o: Options, s: State, c: char): (r: Next)
    ensures Forward(s, r, s.i + 1) && r.Go? && r.s.segments == s.segments
  {
    if o.extended then Skip(Emit(s.(inGroup := true), "("), 1) else CaseCloseBrace(o, s, c)
  }

  function CaseCloseBracket(o: Options, s: State, c: char): (r: Next)
    ensures Forward(s, r, s.i + 1) && r.Go? && r.s.segments == s.segments
  {
    if o.extended then Skip(Emit(s.(inRange := false), [c]), 1) else CaseOpenBrace(o, s, c)
  }

  function CaseOpenBracket(glob: string, o: Options, s: State, c: char): (r: Next)
    requires s.i < |glob|
    ensures Forward(s, r, |glob| + 1) && StuckOnPosix(glob, s, r)
    ensures r.Go? ==> r.s.segments == s.segments
    ensures !s.inRange ==> r.Go?
  {
    if s.inRange && NextIs(glob, s.i, ':') then PosixClass(glob, s)
    else if o.extended then Skip(Emit(s.(inRange := true), [c]), 1)
    else CaseCloseBracket(o, s, c)
  }

  function CaseQuestion(glob: string, o: Options, s: State, c: char): (r: Next)
    requires s.i < |glob| && c in "@!?"
    ensures Forward(s, r, |glob| + 1) && StuckOnPosix(glob, s, r)
    ensures r.Go? ==> r.s.segments == s.segments
    ensures (o.extended || !s.inRange) ==> r.Go?
  {
    if o.extended then
      if NextIs(glob, s.i, '(') then Skip(Push(s, MarkerOf(c)), 1) else Skip(Emit(s, "."), 1)
    else CaseOpenBracket(glob, o, s, c)
  }

  function CaseBang(glob: string, o: Options, s: State, c: char): (r: Next)
    requires s.i < |glob| && c in "@!"
    ensures Forward(s, r, |glob| + 1) && StuckOnPosix(glob, s, r)
    ensures r.Go? ==> r.s.segments == s.segments
    ensures (o.extended || !s.inRange) ==> r.Go?
  {
    if o.extended then
      if s.inRange then Skip(Emit(s, "^"), 1)
      else if NextIs(glob, s.i, '(') then Skip(Emit(Push(s, MarkerOf(c)), "(?!"), 2)
      else Skip(Emit(s, Esc(c)), 1)
    else CaseQuestion(glob, o, s, c)
  }

  function CaseAt(glob: string, o: Options, s: State): (r: Next)
    requires s.i < |glob|
    ensures Forward(s, r, |glob| + 1) && StuckOnPosix(glob, s, r)
    ensures r.Go? ==> r.s.segments == s.segments
    ensures (o.extended || !s.inRange) ==> r.Go?
  {
    if NextIs(glob, s.i, '(') && o.extended then Skip(Push(s, At), 1) else CaseBang(glob, o, s, '@')
  }

  /** A run of stars bounded by separators or the ends of the pattern. */
  predicate IsGlobstar(glob: string, i: nat, e: nat)
    requires i < e <= |glob|
  {
    e - i > 1 && (i == 0 || glob[i - 1] == '/') && (e == |glob| || glob[e] == '/')
  }

  function CaseStar(glob: string, o: Options, s: State): (r: Next)
    requires s.i < |glob| && glob[s.i] == '*'
    ensures Forward(s, r, |glob| + 1) && r.Go?
    ensures FilesNonEmpty(s, r, o.flags)
  {
    if NextIs(glob, s.i, '(') && o.extended then Skip(Push(s, Star), 1)
    else
      var e := RunEnd(glob, s.i);
      if !o.globstar then Go(Emit(s, ".*").(i := e))
      else if IsGlobstar(glob, s.i, e) then Go(Add(s, o.flags, GlobstarText, true, true).(i := e + 1))
      else Go(Emit(s, StarText).(i := e))
  }

  function CaseBackslash(glob: string, o: Options, s: State): (r: Next)
    requires s.i < |glob|
    ensures Forward(s, r, |glob| + 1) && r.Go?
    ensures FilesNonEmpty(s, r, o.flags)
  {
    var t := Add(s, o.flags, BackslashText, o.windows, false);
    if NextIs(glob, s.i, '\\') then
      Skip(if o.strict then t else t.(reStr := t.reStr + "?"), 2)
    else Skip(t, 1)
  }

  function CaseSlash(glob: string, o: Options, s: State): (r: Next)
    requires s.i < |glob|
    ensures Forward(s, r, |glob| + 1) && r.Go?
    ensures FilesNonEmpty(s, r, o.flags)
  {
    var t := Add(s, o.flags, Esc('/'), !o.windows, false);
    Skip(if NextIs(glob, s.i, '/') && !o.strict then t.(reStr := t.reStr + "?") else t, 1)
  }

  function CaseClose(s: State): (r: Next)
    ensures Forward(s, r, s.i + 1) && r.Go?
  {
    if s.ext != [] then
      var m := s.ext[|s.ext| - 1];
      Skip(Emit(Emit(s, ")").(ext := s.ext[..|s.ext| - 1]), CloseText(m)), 1)
    else Skip(Emit(s, Esc(')')), 1)
  }

  /** One iteration of the scan loop at position `s.i`. A step always moves
      forward, by at most one character past the end of the input; it can
      only get stuck on a POSIX class opener inside a bracket class with no
      `:` anywhere after it. */
  function Step(glob: string, o: Options, s: State): (r: Next)
    requires s.i < |glob|
    ensures Forward(s, r, |glob| + 1) && StuckOnPosix(glob, s, r)
    ensures FilesNonEmpty(s, r, o.flags)
    ensures r.Stuck? ==> glob[s.i] in "@!?["
    ensures r.Stuck? && o.extended ==> glob[s.i] == '['
  {
    var c := glob[s.i];
    match c
    case '$' => Skip(Emit(s, Esc(c)), 1)
    case '^' => Skip(Emit(s, Esc(c)), 1)
    case '.' => Skip(Emit(s, Esc(c)), 1)
    case '=' => Skip(Emit(s, Esc(c)), 1)
    case '\\' => CaseBackslash(glob, o, s)
    case '/' => CaseSlash(glob, o, s)
    case '(' => Skip(Emit(s, if s.ext != [] then "(" else Esc(c)), 1)
    case ')' => CaseClose(s)
    case '|' => Skip(Emit(s, if s.ext != [] then "|" else Esc(c)), 1)
    case '+' => if NextIs(glob, s.i, '(') && o.extended then Skip(Push(s, Plus), 1) else Skip(Emit(s, Esc(c)), 1)
    case '@' => CaseAt(glob, o, s)
    case '!' => CaseBang(glob, o, s, c)
    case '?' => CaseQuestion(glob, o, s, c)
    case '[' => CaseOpenBracket(glob, o, s, c)
    case ']' => CaseCloseBracket(o, s, c)
    case '{' => CaseOpenBrace(o, s, c)
    case '}' => CaseCloseBrace(o, s, c)
    case ',' => CaseComma(s, c)
    case '*' => CaseStar(glob, o, s)
    case _ => Skip(Emit(s, [c]), 1)
  }

  /** The scan loop from state `s` to the end of the input. The buffers and
      the filed segments only ever grow. */
  function Run(glob: string, o: Options, s: State): (r: Next)
    requires s.i <= |glob| + 1
    ensures r.Go? ==> r.s.i >= |glob|
    ensures r.Go? ==> s.reStr <= r.s.reStr && s.segments <= r.s.segments
    ensures FilesNonEmpty(s, r, o.flags)
    ensures r.Stuck? ==> s.i <= r.at < |glob| && glob[r.at] in "@!?[" && NextIs(glob, r.at, ':')
                         && ':' !in glob[r.at + 2..]
    ensures r.Stuck? && o.extended ==> glob[r.at] == '['
    decreases |glob| + 1 - s.i
  {
    if s.i >= |glob| then Go(s)
    else
      match Step(glob, o, s)
      case Stuck(at) => Stuck(at)
      case Go(t) => Run(glob, o, t)
  }

  /** `globrex(glob, options)`: scan, anchor unless the flags hold `g`, and
      file the last segment whatever its text. */
  function Compile(glob: string, o: Options): (r: Outcome)
    ensures r.Compiled? ==> |r.segments| >= 1 && r.flags == o.flags
    ensures r.Compiled? && Anchored(o.flags) ==>
              |r.str| >= 2 && r.str[0] == '^' && r.str[|r.str| - 1] == '$'
              && var last := r.segments[|r.segments| - 1];
                 |last| >= 2 && last[0] == '^' && last[|last| - 1] == '$'
    ensures r.Compiled? ==> forall k :: 0 <= k < |r.segments| - 1 ==> Filed(r.segments[k], o.flags)
    ensures r.Hangs? ==> r.at < |glob| && glob[r.at] in "@!?[" && NextIs(glob, r.at, ':')
                         && ':' !in glob[r.at + 2..]
    ensures r.Hangs? && o.extended ==> glob[r.at] == '['
  {
    match Run(glob, o, Start)
    case Stuck(at) => Hangs(at)
    case Go(t) => Compiled(Anchor(t.reStr, o.flags), t.segments + [Anchor(t.segment, o.flags)], o.flags)
  }
}
