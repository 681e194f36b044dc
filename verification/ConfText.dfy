/** The text of a configuration file: how ngx_conf_read_token reads it, seen on the whole file at once. */
module ConfText {
  datatype Code = OK | BLOCK_START | BLOCK_DONE | FILE_DONE | ERROR

  datatype Flags = Flags(lastSpace: bool, needSpace: bool, sharpComment: bool, variable: bool,
                         quoted: bool, sQuoted: bool, dQuoted: bool)

  /** The tokenizer between two characters. */
  datatype Tok = Tok(f: Flags, start: nat, startLine: nat, line: nat, args: seq<string>)

  datatype Outcome = More(t: Tok) | Done(code: Code, t: Tok)

  /** What a call returns: the code, where the next call goes on, the line, the arguments. */
  datatype Reading = Reading(code: Code, pos: nat, line: nat, args: seq<string>)

  const LF: char := '\n'
  const CR: char := '\r'
  const CONF_BUFFER: nat := 4096

  predicate Blank(c: char) {
    c == ' ' || c == '\t' || c == CR || c == LF
  }

  /** The argument between `s` and `e`: a backslash is dropped before quotes and backslashes, and makes
      a tabulator, CR or LF of t, r and n. */
  function Unescaped(text: string, s: nat, e: nat): string
    requires e < |text|
    decreases e - s
  {
    if s >= e then ""
    else if text[s] == '\\' && text[s + 1] in {'"', '\'', '\\'} then [text[s + 1]] + Unescaped(text, s + 2, e)
    else if text[s] == '\\' && text[s + 1] == 't' then ['\t'] + Unescaped(text, s + 2, e)
    else if text[s] == '\\' && text[s + 1] == 'r' then [CR] + Unescaped(text, s + 2, e)
    else if text[s] == '\\' && text[s + 1] == 'n' then [LF] + Unescaped(text, s + 2, e)
    else [text[s]] + Unescaped(text, s + 1, e)
  }

  // What the first character of a word does: go on, perhaps behind a quote, or stop.
  datatype First = Into(f: Flags, skip: nat) | Stop(code: Code)

  function FirstChar(ch: char, f: Flags, nelts: nat): First {
    if Blank(ch) then Into(f, 0)
    else if ch == ';' || ch == '{' then Stop(if nelts == 0 then ERROR else if ch == '{' then BLOCK_START else OK)
    else if ch == '}' then Stop(if nelts != 0 then ERROR else BLOCK_DONE)
    else if ch == '#' then Into(f.(sharpComment := true), 0)
    else if ch == '\\' then Into(f.(quoted := true, lastSpace := false), 0)
    else if ch == '"' then Into(f.(dQuoted := true, lastSpace := false), 1)
    else if ch == '\'' then Into(f.(sQuoted := true, lastSpace := false), 1)
    else if ch == '$' then Into(f.(variable := true, lastSpace := false), 0)
    else Into(f.(lastSpace := false), 0)
  }

  /** What a further character of a word does, and whether it ends the word. */
  function InnerChar(ch: char, f: Flags): (Flags, bool) {
    if ch == '{' && f.variable then (f, false)
    else
      var g := f.(variable := false);
      if ch == '\\' then (g.(quoted := true), false)
      else if ch == '$' then (g.(variable := true), false)
      else if g.dQuoted then if ch == '"' then (g.(dQuoted := false, needSpace := true), true) else (g, false)
      else if g.sQuoted then if ch == '\'' then (g.(sQuoted := false, needSpace := true), true) else (g, false)
      else if Blank(ch) || ch == ';' || ch == '{' then (g.(lastSpace := true), true)
      else (g, false)
  }

  /** One character, at `i`. */
  function Step(file: string, i: nat, t: Tok): Outcome
    requires i < |file|
  {
    var ch := file[i];
    var line := if ch == LF then t.line + 1 else t.line;
    var f := if ch == LF then t.f.(sharpComment := false) else t.f;
    if f.sharpComment then More(t.(line := line))
    else if f.quoted then More(t.(line := line, f := f.(quoted := false)))
    else if f.needSpace && Blank(ch) then More(t.(line := line, f := f.(lastSpace := true, needSpace := false)))
    else if f.needSpace && ch == ';' then Done(OK, t.(line := line, f := f))
    else if f.needSpace && ch == '{' then Done(BLOCK_START, t.(line := line, f := f))
    else if f.needSpace && ch != ')' then Done(ERROR, t.(line := line, f := f))
    else
      var g := if f.needSpace then f.(lastSpace := true, needSpace := false) else f;
      if g.lastSpace then
        var u := t.(line := line, f := g, start := i, startLine := line);
        match FirstChar(ch, g, |t.args|)
        case Into(h, skip) => More(u.(f := h, start := i + skip))
        case Stop(code) => Done(code, u)
      else
        var (h, found) := InnerChar(ch, g);
        var u := t.(line := line, f := h);
        if !found then More(u)
        else
          var v := u.(args := t.args + [Unescaped(file, t.start, i)]);
          if ch == ';' then Done(OK, v) else if ch == '{' then Done(BLOCK_START, v) else More(v)
  }

  function Run(file: string, i: nat, t: Tok): (r: Reading)
    requires i <= |file|
    ensures i <= r.pos <= |file| && (r.code != ERROR && r.code != FILE_DONE ==> i < r.pos)
    decreases |file| - i
  {
    if i == |file| then
      Reading(if t.args != [] || !t.f.lastSpace then ERROR else FILE_DONE, i, t.line, t.args)
    else
      match Step(file, i, t)
      case More(u) => Run(file, i + 1, u)
      case Done(code, u) => Reading(code, i + 1, u.line, u.args)
  }

  const START: Flags := Flags(true, false, false, false, false, false, false)

  /** One call of ngx_conf_read_token with the whole file in view. */
  function Token(file: string, at: nat, line: nat): (r: Reading)
    requires at <= |file|
    ensures at <= r.pos <= |file| && (r.code != ERROR && r.code != FILE_DONE ==> at < r.pos)
  {
    Run(file, at, Tok(START, at, line, line, []))
  }

  /** No word or comment is longer than the buffer when another character is needed. */
  predicate Fits(file: string, i: nat, t: Tok)
    requires i <= |file|
    decreases |file| - i
  {
    i < |file| ==> i < t.start + CONF_BUFFER && (Step(file, i, t).More? ==> Fits(file, i + 1, Step(file, i, t).t))
  }

  /** What a call returns with the buffer in between. */
  function Buffered(file: string, at: nat, line: nat): (r: Reading)
    requires at <= |file|
    ensures at <= r.pos <= |file| && (r.code != ERROR && r.code != FILE_DONE ==> at < r.pos)
  {
    if Fits(file, at, Tok(START, at, line, line, [])) then Token(file, at, line) else Reading(ERROR, at, line, [])
  }

  lemma FitsOn(file: string, i: nat, t: Tok)
    requires i < |file|
    ensures Fits(file, i, t) <==>
      i < t.start + CONF_BUFFER && (Step(file, i, t).More? ==> Fits(file, i + 1, Step(file, i, t).t))
  {
  }

  lemma OneStep(file: string, i: nat, t: Tok)
    requires i < |file|
    ensures match Step(file, i, t)
      case More(u) => Run(file, i, t) == Run(file, i + 1, u)
      case Done(code, u) => Run(file, i, t) == Reading(code, i + 1, u.line, u.args)
  {
  }

  // ----- configurations -----

  /** A directive, or a block with what is between its braces. */
  datatype Item = Simple(args: seq<string>) | Block(args: seq<string>, body: seq<Item>)

  datatype Parsed = Parsed(items: seq<Item>, pos: nat, line: nat) | Failed

  function Before(x: Item, p: Parsed): Parsed {
    if p.Failed? then Failed else p.(items := [x] + p.items)
  }

  /** ngx_conf_parse: directives up to the end of the file, or of the block. */
  function Tree(file: string, at: nat, line: nat, block: bool): (p: Parsed)
    requires at <= |file|
    ensures p.Parsed? ==> at <= p.pos <= |file|
    decreases |file| - at
  {
    var r := Buffered(file, at, line);
    match r.code
    case ERROR => Failed
    case BLOCK_DONE => if block then Parsed([], r.pos, r.line) else Failed
    case FILE_DONE => if block then Failed else Parsed([], r.pos, r.line)
    case OK => Before(Simple(r.args), Tree(file, r.pos, r.line, block))
    case BLOCK_START =>
      var b := Tree(file, r.pos, r.line, true);
      if b.Failed? then Failed else Before(Block(r.args, b.items), Tree(file, b.pos, b.line, block))
  }
}
