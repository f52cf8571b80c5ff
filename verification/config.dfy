/** Options of one translation call and the small vocabulary that the scanner
    and the properties about it share: extglob markers, escaping and anchoring. */
module Config {

  /** The options object of `globrex`. `windows` is an explicit field: choosing
      the host platform's separator is left to the caller. */
  datatype Options = Options(extended: bool, globstar: bool, strict: bool, flags: string, windows: bool)

  /** The whole-pattern string and the segment strings are wrapped in `^…$`
      unless the regex flags ask for a global search. */
  predicate Anchored(flags: string) {
    'g' !in flags
  }

  function Anchor(body: string, flags: string): string {
    if Anchored(flags) then "^" + body + "$" else body
  }

  /** A character preceded by a backslash: the regex literal for that character. */
  function Esc(c: char): string {
    ['\\', c]
  }

  /** Characters that become regex literals by escaping when extended syntax is off. */
  predicate Escaped(c: char) {
    c in "$^.=()|+@!?[]{},"
  }

  /** The translation of one character that is not `*`, `\\` or `/` outside extended mode. */
  function Literal(c: char): string {
    if Escaped(c) then Esc(c) else [c]
  }

  /** The extglob markers that can sit on the group stack. */
  datatype Marker = At | Bang | Plus | Star | Quest

  function MarkerChar(m: Marker): char {
    match m
    case At => '@'
    case Bang => '!'
    case Plus => '+'
    case Star => '*'
    case Quest => '?'
  }

  /** The marker a glob character pushes; `MarkerChar` is its inverse. */
  function MarkerOf(c: char): (m: Marker)
    requires c in "@!+*?"
    ensures MarkerChar(m) == c
  {
    if c == '@' then At
    else if c == '!' then Bang
    else if c == '+' then Plus
    else if c == '*' then Star
    else Quest
  }

  /** The text that follows the `)` closing a group opened with marker `m`. */
  function CloseText(m: Marker): string {
    match m
    case At => "{1}"
    case Bang => "([^/]*)"
    case _ => [MarkerChar(m)]
  }
}
