/** The configuration tokenizer on its buffer: whatever is refilled when, it reads the same tokens as
    with the whole file in view. */
module ConfFile {
  import opened ConfText

  class Reader {
    const file: string             // the bytes of the file
    const buffer: array<char>      // b->start .. b->end
    var offset: nat                // file.offset: how much of the file was read
    var pos: nat                   // b->pos
    var last: nat                  // b->last
    var line: nat
    var args: seq<string>

    /** The place in the file of the next character. */
    function Position(): int
      reads `offset, `pos, `last
    {
      offset - last + pos
    }

    /** From `start` on the buffer holds what the file has before `offset`. */
    ghost predicate Mirrors(start: nat)
      reads `offset, `pos, `last, buffer
    {
      && buffer.Length == CONF_BUFFER && start <= pos <= last <= CONF_BUFFER && last <= offset <= |file|
      && forall k {:trigger buffer[k]} :: start <= k < last ==> buffer[k] == file[offset - last + k]
    }

    ghost predicate Valid()
      reads this, buffer
    {
      Mirrors(pos)
    }

    constructor (file: string)
      ensures Valid() && this.file == file && Position() == 0 && line == 1 && fresh(buffer)
    {
      this.file := file;
      buffer := new char[CONF_BUFFER];
      offset, pos, last, line, args := 0, 0, 0, 1, [];
    }

    /** What is left of the word moves to the start of the buffer, and the rest is filled from the file. */
    method Refill(start: nat)
      requires Mirrors(start) && pos == last && offset < |file| && pos - start < CONF_BUFFER
      modifies `offset, `pos, `last, buffer
      ensures Mirrors(0) && pos < last && pos == old(pos) - start && Position() == old(Position())
    {
      var len := pos - start;
      var i := 0;
      while i < len                          // ngx_memmove
        invariant 0 <= i <= len
        invariant forall k {:trigger buffer[k]} :: 0 <= k < i ==> buffer[k] == file[offset - last + start + k]
        invariant forall k {:trigger buffer[k]} :: start + i <= k < last ==> buffer[k] == file[offset - last + k]
        modifies buffer
      {
        buffer[i] := buffer[start + i];
        i := i + 1;
      }
      var size := |file| - offset;
      if size > CONF_BUFFER - len {
        size := CONF_BUFFER - len;
      }
      i := 0;
      while i < size                         // ngx_read_file
        invariant 0 <= i <= size
        invariant forall k {:trigger buffer[k]} :: 0 <= k < len + i ==> buffer[k] == file[offset - len + k]
        modifies buffer
      {
        buffer[len + i] := file[offset + i];
        i := i + 1;
      }
      offset := offset + size;
      pos := len;
      last := pos + size;
    }

    /** The argument that ends before the last character read. */
    method Word(start: nat) returns (word: string)
      requires Mirrors(start) && start < pos
      ensures word == Unescaped(file, offset - last + start, Position() - 1)
    {
      hide Unescaped;
      word := "";
      var src := start;
      ghost var base := offset - last;
      assert forall w: string :: "" + w == w;
      while src < pos - 1
        invariant start <= src <= pos
        invariant word + Unescaped(file, base + src, Position() - 1) == Unescaped(file, base + start, Position() - 1)
      {
        OneChar(file, base + src, Position() - 1, word);
        assert buffer[src] == file[base + src] && buffer[src + 1] == file[base + src + 1];
        if buffer[src] == '\\' {
          if buffer[src + 1] == '"' || buffer[src + 1] == '\'' || buffer[src + 1] == '\\' {
            src := src + 1;
          } else if buffer[src + 1] == 't' {
            word := word + ['\t'];
            src := src + 2;
            continue;
          } else if buffer[src + 1] == 'r' {
            word := word + [CR];
            src := src + 2;
            continue;
          } else if buffer[src + 1] == 'n' {
            word := word + [LF];
            src := src + 2;
            continue;
          }
        }
        word := word + [buffer[src]];
        src := src + 1;
      }
      NoChar(file, base + src, Position() - 1);
    }

    /** ngx_conf_read_token: the token and everything about it is the one of the whole file if and only if
        the word or comment fits the buffer; one that does not fit is an error. */
    method ReadToken() returns (code: Code)
      requires Valid()
      modifies `offset, `pos, `last, `line, `args, buffer
      ensures Valid()
      ensures if Fits(file, old(Position()), Tok(START, old(Position()), old(line), old(line), []))
        then Reading(code, Position(), line, args) == Token(file, old(Position()), old(line))
        else code == ERROR
      ensures old(Fits(file, Position(), Tok(START, Position(), line, line, []))) <==>
        Reading(code, Position(), line, args) == Token(file, old(Position()), old(line))
    {
      hide Run, Fits, Step, Unescaped;
      var f := START;
      var start, startLine := pos, line;
      args := [];
      ghost var t0 := Tok(START, Position(), line, line, []);
      ghost var t := t0;
      while true
        invariant Mirrors(start)
        invariant t == Tok(f, offset - last + start, startLine, line, args)
        invariant Run(file, Position(), t) == old(Run(file, Position(), t0))
        invariant old(Fits(file, Position(), t0)) <==> Fits(file, Position(), t)
        decreases |file| - Position()
      {
        if pos >= last {
          if offset >= |file| {
            AtEnd(file, t);
            if args != [] || !f.lastSpace {
              return ERROR;
            }
            return FILE_DONE;
          }
          if pos - start == CONF_BUFFER {
            TooLong(file, Position(), t);
            MovesOn(file, Position(), t);
            line := startLine;
            return ERROR;
          }
          Refill(start);
          start := 0;
        }
        OneStep(file, Position(), t);
        FitsOn(file, Position(), t);
        t := Step(file, Position(), t).t;
        var done;
        f, start, startLine, done, code := Character(f, start, startLine);
        if done {
          return;
        }
      }
    }

    /** ngx_conf_parse, with directives that are all accepted and blocks that are parsed in turn. */
    method Parse(block: bool) returns (ok: bool, items: seq<Item>)
      requires Valid()
      modifies `offset, `pos, `last, `line, `args, buffer
      ensures Valid()
      ensures var p := Tree(file, old(Position()), old(line), block);
        if ok then p == Parsed(items, Position(), line) else p.Failed?
      decreases |file| - Position()
    {
      hide Fits, Token;
      items := [];
      ghost var p := Tree(file, Position(), line, block);
      while true
        invariant Valid() && old(Position()) <= Position()
        invariant p == Behind(items, Tree(file, Position(), line, block))
        decreases |file| - Position()
      {
        ghost var at, l := Position(), line;
        var code := ReadToken();
        assert code == Buffered(file, at, l).code
          && (code != ERROR ==> Buffered(file, at, l) == Reading(code, Position(), line, args));
        match code {
          case ERROR =>
            return false, [];
          case BLOCK_DONE =>
            return block, items;
          case FILE_DONE =>
            return !block, items;
          case OK =>
            BehindOne(items, Simple(args), Tree(file, Position(), line, block));
            items := items + [Simple(args)];
          case BLOCK_START =>
            var name := args;
            var done, body := Parse(true);
            if !done {
              return false, [];
            }
            BehindOne(items, Block(name, body), Tree(file, Position(), line, block));
            items := items + [Block(name, body)];
        }
      }
    }

    lemma MirrorsLess(start: nat, from: nat)
      requires Mirrors(start) && start <= from <= pos
      ensures Mirrors(from) && offset >= last
    {
    }

    /** One character: the flags, the start of the word, the arguments, and whether the token is complete. */
    method Character(f0: Flags, start0: nat, startLine0: nat)
      returns (f: Flags, start: nat, startLine: nat, done: bool, code: Code)
      requires Mirrors(start0) && pos < last
      modifies `pos, `line, `args
      ensures Mirrors(start) && pos == old(pos) + 1
      ensures var t := Tok(f, offset - last + start, startLine, line, args);
        old(Step(file, Position(), Tok(f0, offset - last + start0, startLine0, line, args)))
          == if done then Done(code, t) else More(t)
    {
      hide Step;
      var ch := buffer[pos];
      pos := pos + 1;
      f, start, startLine, done, code := Handle(ch, f0, start0, startLine0);
    }

    method Handle(ch: char, f0: Flags, start0: nat, startLine0: nat)
      returns (f: Flags, start: nat, startLine: nat, done: bool, code: Code)
      requires Mirrors(start0) && start0 < pos && last <= offset && Position() <= |file| && ch == file[Position() - 1]
      modifies `line, `args
      ensures Mirrors(start) && offset - last + start >= 0
      ensures var t := Tok(f, offset - last + start, startLine, line, args);
        old(Step(file, Position() - 1, Tok(f0, offset - last + start0, startLine0, line, args)))
          == if done then Done(code, t) else More(t)
    {
      hide Unescaped, FirstChar, InnerChar, Mirrors;
      f, start, startLine, done, code := f0, start0, startLine0, false, OK;
      MirrorsLess(start, start);
      if ch == LF {
        line := line + 1;
        f := f.(sharpComment := false);
      }
      if f.sharpComment {
        return;
      }
      if f.quoted {
        f := f.(quoted := false);
        return;
      }
      if f.needSpace {
        if Blank(ch) {
          f := f.(lastSpace := true, needSpace := false);
          return;
        }
        if ch == ';' {
          return f, start, startLine, true, OK;
        }
        if ch == '{' {
          return f, start, startLine, true, BLOCK_START;
        }
        if ch == ')' {
          f := f.(lastSpace := true, needSpace := false);
        } else {
          return f, start, startLine, true, ERROR;
        }
      }
      if f.lastSpace {
        start, startLine := pos - 1, line;
        var skip;
        f, skip, done, code := FirstOf(ch, f);
        start := start + skip;
        MirrorsLess(start0, start);
        return;
      }
      var found;
      f, found := InnerOf(ch, f);
      if found {
        var word := Word(start);
        args := args + [word];
        if ch == ';' {
          return f, start, startLine, true, OK;
        }
        if ch == '{' {
          return f, start, startLine, true, BLOCK_START;
        }
      }
    }

    // The first character of a word, or what stands between words.
    method FirstOf(ch: char, f0: Flags) returns (f: Flags, skip: nat, done: bool, code: Code)
      ensures FirstChar(ch, f0, |args|) == if done then Stop(code) else Into(f, skip)
      ensures done ==> f == f0 && skip == 0
      ensures !done ==> skip <= 1
    {
      f, skip, done, code := f0, 0, false, OK;
      if Blank(ch) {
        return;
      }
      match ch {
        case ';' | '{' =>
          if |args| == 0 {
            return f, 0, true, ERROR;
          }
          return f, 0, true, if ch == '{' then BLOCK_START else OK;
        case '}' =>
          return f, 0, true, if |args| != 0 then ERROR else BLOCK_DONE;
        case '#' =>
          f := f.(sharpComment := true);
        case '\\' =>
          f := f.(quoted := true, lastSpace := false);
        case '"' =>
          skip := 1;
          f := f.(dQuoted := true, lastSpace := false);
        case '\'' =>
          skip := 1;
          f := f.(sQuoted := true, lastSpace := false);
        case '$' =>
          f := f.(variable := true, lastSpace := false);
        case _ =>
          f := f.(lastSpace := false);
      }
    }

    // A further character of a word.
    method InnerOf(ch: char, f0: Flags) returns (f: Flags, found: bool)
      ensures (f, found) == InnerChar(ch, f0)
    {
      f, found := f0, false;
      if ch == '{' && f.variable {
        return;
      }
      f := f.(variable := false);
      if ch == '\\' {
        f := f.(quoted := true);
        return;
      }
      if ch == '$' {
        f := f.(variable := true);
        return;
      }
      if f.dQuoted {
        if ch == '"' {
          f := f.(dQuoted := false, needSpace := true);
          found := true;
        }
      } else if f.sQuoted {
        if ch == '\'' {
          f := f.(sQuoted := false, needSpace := true);
          found := true;
        }
      } else if Blank(ch) || ch == ';' || ch == '{' {
        f := f.(lastSpace := true);
        found := true;
      }
    }
  }

  // More items in front.
  function Behind(items: seq<Item>, p: Parsed): Parsed {
    if p.Failed? then Failed else p.(items := items + p.items)
  }

  lemma BehindOne(items: seq<Item>, x: Item, p: Parsed)
    ensures Behind(items, Before(x, p)) == Behind(items + [x], p)
  {
    assert p.Parsed? ==> items + ([x] + p.items) == items + [x] + p.items;
  }

  lemma AtEnd(file: string, t: Tok)
    ensures Run(file, |file|, t) ==
      Reading(if t.args != [] || !t.f.lastSpace then ERROR else FILE_DONE, |file|, t.line, t.args)
    ensures Fits(file, |file|, t)
  {
  }

  lemma TooLong(file: string, i: nat, t: Tok)
    requires i < |file| && i == t.start + CONF_BUFFER
    ensures !Fits(file, i, t)
  {
  }

  // Some character is read before a token is complete.
  lemma MovesOn(file: string, i: nat, t: Tok)
    requires i < |file|
    ensures Run(file, i, t).pos > i
  {
    OneStep(file, i, t);
  }

  lemma NoChar(file: string, s: nat, e: nat)
    requires e < |file| && s >= e
    ensures Unescaped(file, s, e) == ""
  {
  }

  // A character and the bytes it takes.
  function CharAt(file: string, s: nat): (char, nat)
    requires s + 1 < |file|
  {
    if file[s] != '\\' then (file[s], 1)
    else match file[s + 1]
      case '"' => ('"', 2)
      case '\'' => ('\'', 2)
      case '\\' => ('\\', 2)
      case 't' => ('\t', 2)
      case 'r' => (CR, 2)
      case 'n' => (LF, 2)
      case _ => (file[s], 1)
  }

  lemma FirstUnescaped(file: string, s: nat, e: nat)
    requires s < e < |file|
    ensures var (c, n) := CharAt(file, s); Unescaped(file, s, e) == [c] + Unescaped(file, s + n, e)
  {
  }

  lemma OneChar(file: string, s: nat, e: nat, w: string)
    requires s < e < |file|
    ensures var (c, n) := CharAt(file, s); w + Unescaped(file, s, e) == w + [c] + Unescaped(file, s + n, e)
  {
    hide Unescaped;
    FirstUnescaped(file, s, e);
    var (c, n) := CharAt(file, s);
    assert w + ([c] + Unescaped(file, s + n, e)) == w + [c] + Unescaped(file, s + n, e);
  }
}
