/** How a configuration is spelled: words with and without quotes, escapes, variables, blanks and comments, and
    that every spelling is read as what it stands for. */
module ConfSpelling {
  import opened Separated
  import opened ConfText

  datatype Style = Bare | Single | Double

  /** A character as it is; one that is written with a backslash; a backslash that stands for itself, and what
      follows it. */
  datatype Unit = Raw(c: char) | Coded(c: char) | Kept(c: char)

  datatype Word = Word(style: Style, units: seq<Unit>)

  /** What stands between words; a comment ends with its line. */
  datatype Piece = Space(c: char) | Comment(text: string)

  type Gap = seq<Piece>

  // An argument, and what stands behind it.
  datatype Argument = Argument(word: Word, gap: Gap)

  datatype Source = Directive(before: Gap, args: seq<Argument>)
                  | Section(before: Gap, args: seq<Argument>, body: seq<Source>, close: Gap)

  // ----- the text -----

  function UnitText(u: Unit): string {
    match u
    case Raw(c) => [c]
    case Coded(c) => ['\\', if c == '\t' then 't' else if c == '\r' then 'r' else if c == '\n' then 'n' else c]
    case Kept(c) => ['\\', c]
  }

  function UnitsText(us: seq<Unit>): string {
    if us == [] then "" else UnitText(us[0]) + UnitsText(us[1..])
  }

  function WordText(w: Word): string {
    match w.style
    case Bare => UnitsText(w.units)
    case Single => ['\''] + (UnitsText(w.units) + ['\''])
    case Double => ['"'] + (UnitsText(w.units) + ['"'])
  }

  function PieceText(p: Piece): string {
    match p
    case Space(c) => [c]
    case Comment(text) => ['#'] + (text + ['\n'])
  }

  function GapText(g: Gap): string {
    if g == [] then "" else PieceText(g[0]) + GapText(g[1..])
  }

  function ArgumentsText(args: seq<Argument>): string {
    if args == [] then "" else WordText(args[0].word) + (GapText(args[0].gap) + ArgumentsText(args[1..]))
  }

  function Text(xs: seq<Source>): string {
    if xs == [] then ""
    else
      var x := xs[0];
      GapText(x.before) + (ArgumentsText(x.args) + [Ender(x)]) +
      ((if x.Section? then Text(x.body) + (GapText(x.close) + "}") else "") + Text(xs[1..]))
  }

  function Ender(x: Source): char {
    if x.Section? then '{' else ';'
  }

  // ----- what it stands for -----

  function UnitsValue(us: seq<Unit>): string {
    if us == [] then ""
    else (if us[0].Kept? then ['\\', us[0].c] else [us[0].c]) + UnitsValue(us[1..])
  }

  function Values(args: seq<Argument>): seq<string> {
    if args == [] then [] else [UnitsValue(args[0].word.units)] + Values(args[1..])
  }

  function Meaning(xs: seq<Source>): seq<Item> {
    if xs == [] then []
    else
      var x := xs[0];
      [if x.Section? then Block(Values(x.args), Meaning(x.body)) else Simple(Values(x.args))] + Meaning(xs[1..])
  }

  // ----- what may be spelled -----

  // A `$` stands in front, perhaps with braces behind it.
  function VarAfter(v: bool, u: Unit): bool {
    u == Raw('$') || (v && u == Raw('{'))
  }

  function VarAfterAll(v: bool, us: seq<Unit>): bool
    decreases us
  {
    if us == [] then v else VarAfterAll(VarAfter(v, us[0]), us[1..])
  }

  /** An opening brace belongs to a word without quotes behind a `$` only. */
  predicate UnitFine(u: Unit, style: Style, v: bool) {
    match u
    case Raw(c) =>
      c != '\\' &&
      (match style
       case Bare => c != ' ' && c != '\t' && c != '\r' && c != '\n' && c != ';' && (c == '{' ==> v)
       case Single => c != '\''
       case Double => c != '"')
    case Coded(c) => c == '"' || c == '\'' || c == '\\' || c == '\t' || c == '\r' || c == '\n'
    case Kept(c) => c != '"' && c != '\'' && c != '\\' && c != 't' && c != 'r' && c != 'n'
  }

  predicate AllFine(us: seq<Unit>, style: Style, v: bool) {
    us == [] || (UnitFine(us[0], style, v) && AllFine(us[1..], style, VarAfter(v, us[0])))
  }

  /** A word without quotes is not empty and does not begin as something else. */
  predicate WordFine(w: Word) {
    && AllFine(w.units, w.style, false)
    && (w.style.Bare? ==>
      w.units != [] && w.units[0] != Raw('}') && w.units[0] != Raw('#') && w.units[0] != Raw('"') &&
      w.units[0] != Raw('\''))
  }

  predicate PieceFine(p: Piece) {
    match p
    case Space(c) => c == ' ' || c == '\t' || c == '\r' || c == '\n'
    case Comment(text) => '\n' !in text
  }

  predicate GapFine(g: Gap) {
    g == [] || (PieceFine(g[0]) && GapFine(g[1..]))
  }

  /** Behind a word stands a blank, or the end of the directive, or, behind a word in quotes, a word that begins with
      a closing parenthesis; `{` right behind `$` would belong to the word. */
  predicate ArgumentsFine(args: seq<Argument>, end: char) {
    args == [] ||
    var a := args[0];
    && WordFine(a.word) && GapFine(a.gap) && ArgumentsFine(args[1..], end)
    && (a.gap != [] ==> a.gap[0].Space?)
    && (a.gap == [] && |args| > 1 ==> !a.word.style.Bare? && OpensWithParenthesis(args[1].word))
    && (a.gap == [] && |args| == 1 && end == '{' && a.word.style.Bare? ==> !VarAfterAll(false, a.word.units))
  }

  predicate OpensWithParenthesis(w: Word) {
    w.style.Bare? && w.units != [] && w.units[0] == Raw(')')
  }

  predicate Fine(xs: seq<Source>) {
    xs == [] ||
    var x := xs[0];
    && GapFine(x.before) && x.args != [] && ArgumentsFine(x.args, Ender(x))
    && (x.Section? ==> Fine(x.body) && GapFine(x.close))
    && Fine(xs[1..])
  }

  // ----- what fits a buffer of 4096 bytes -----

  predicate ShortGap(g: Gap) {
    g == [] || ((g[0].Comment? ==> |g[0].text| + 1 < 4096) && ShortGap(g[1..]))
  }

  // The bytes in the buffer when the character behind the word is read.
  function Reach(w: Word): nat {
    |UnitsText(w.units)| + if w.style.Bare? then 0 else 1
  }

  predicate ShortArguments(args: seq<Argument>) {
    args == [] || (ShortArgument(args[0]) && ShortArguments(args[1..]))
  }

  predicate ShortArgument(a: Argument) {
    Reach(a.word) + (if a.gap == [] then 0 else 1) < 4096 && ShortGap(a.gap)
  }

  predicate AllShort(xs: seq<Source>) {
    xs == [] ||
    var x := xs[0];
    && ShortGap(x.before) && ShortArguments(x.args)
    && (x.Section? ==> AllShort(x.body) && ShortGap(x.close))
    && AllShort(xs[1..])
  }

  // ----- reading on -----

  /** Reading from `i` on is reading from `j` on, and fits if that fits and `ok` holds. */
  ghost predicate Leads(file: string, i: nat, t: Tok, j: nat, u: Tok, ok: bool) {
    && i <= |file| && j <= |file|
    && Run(file, i, t) == Run(file, j, u)
    && (Fits(file, i, t) <==> ok && Fits(file, j, u))
  }

  lemma Further(file: string, i: nat, t: Tok, j: nat, u: Tok, p: bool, k: nat, v: Tok, q: bool)
    requires Leads(file, i, t, j, u, p) && Leads(file, j, u, k, v, q)
    ensures Leads(file, i, t, k, v, p && q)
  {
  }

  lemma StepLeads(file: string, i: nat, t: Tok)
    requires i < |file| && Step(file, i, t).More?
    ensures Leads(file, i, t, i + 1, Step(file, i, t).t, i < t.start + 4096)
  {
    hide Step;
    OneStep(file, i, t);
    FitsOn(file, i, t);
  }

  // Inside a word.
  function WordFlags(style: Style, v: bool): Flags {
    Flags(false, false, false, v, false, style.Single?, style.Double?)
  }

  /** A unit inside a word. */
  lemma UnitLeads(file: string, i: nat, t: Tok, style: Style, v: bool, u: Unit) returns (w: Tok)
    requires At(file, i, UnitText(u)) && t.f == WordFlags(style, v) && UnitFine(u, style, v)
    ensures w.f == WordFlags(style, VarAfter(v, u)) && w.start == t.start && w.args == t.args
    ensures Leads(file, i, t, i + |UnitText(u)|, w, i + |UnitText(u)| <= t.start + 4096)
  {
    hide Run, Fits, Unescaped, Leads;
    UnitChars(file, i, u);
    StepLeads(file, i, t);
    w := Step(file, i, t).t;
    if !u.Raw? {
      StepLeads(file, i + 1, w);
      var x := Step(file, i + 1, w).t;
      Further(file, i, t, i + 1, w, i < t.start + 4096, i + 2, x, i + 1 < t.start + 4096);
      w := x;
    }
  }

  lemma UnitChars(file: string, i: nat, u: Unit)
    requires At(file, i, UnitText(u))
    ensures i + |UnitText(u)| <= |file| && file[i] == UnitText(u)[0]
    ensures !u.Raw? ==> file[i + 1] == UnitText(u)[1]
  {
    assert file[i] == file[i..i + |UnitText(u)|][0];
    assert !u.Raw? ==> file[i + 1] == file[i..i + 2][1];
  }

  lemma UnitsParts(file: string, i: nat, us: seq<Unit>)
    requires At(file, i, UnitsText(us)) && us != []
    ensures var n := |UnitText(us[0])|;
      && At(file, i, UnitText(us[0])) && At(file, i + n, UnitsText(us[1..]))
      && |UnitsText(us)| == n + |UnitsText(us[1..])|
  {
    AtParts(file, i, UnitText(us[0]), UnitsText(us[1..]));
  }

  /** The units of a word, up to its end. */
  lemma {:induction false} UnitsLead(file: string, i: nat, t: Tok, style: Style, v: bool, us: seq<Unit>)
    returns (w: Tok)
    requires At(file, i, UnitsText(us)) && t.f == WordFlags(style, v) && AllFine(us, style, v)
    ensures w.f == WordFlags(style, VarAfterAll(v, us)) && w.start == t.start && w.args == t.args
    ensures Leads(file, i, t, i + |UnitsText(us)|, w, us == [] || i + |UnitsText(us)| <= t.start + 4096)
    decreases us
  {
    hide Leads, UnitText, UnitFine, VarAfter, WordFlags, At;
    if us == [] {
      w := t;
      Stays(file, i, t);
      AtInside(file, i, "");
    } else {
      UnitsParts(file, i, us);
      var n := |UnitText(us[0])|;
      var u := UnitLeads(file, i, t, style, v, us[0]);
      w := UnitsLead(file, i + n, u, style, VarAfter(v, us[0]), us[1..]);
      Further(file, i, t, i + n, u, i + n <= t.start + 4096, i + |UnitsText(us)|, w,
        us[1..] == [] || i + |UnitsText(us)| <= t.start + 4096);
      assert us[1..] == [] ==> |UnitsText(us)| == n;
    }
  }

  lemma Stays(file: string, i: nat, t: Tok)
    ensures i <= |file| ==> Leads(file, i, t, i, t, true)
  {
  }

  lemma AtInside(file: string, i: nat, s: string)
    requires At(file, i, s)
    ensures i + |s| <= |file|
  {
  }

  /** The units are copied to the argument without their backslashes. */
  lemma {:induction false} UnitsUnescape(file: string, i: nat, us: seq<Unit>, style: Style, v: bool)
    requires At(file, i, UnitsText(us)) && i + |UnitsText(us)| < |file| && AllFine(us, style, v)
    ensures Unescaped(file, i, i + |UnitsText(us)|) == UnitsValue(us)
    decreases us
  {
    hide Unescaped, At, UnitText, UnitFine, VarAfter;
    var e := i + |UnitsText(us)|;
    if us == [] {
      NothingUnescaped(file, i);
    } else {
      UnitsParts(file, i, us);
      UnitUnescapes(file, i, us[0], style, v, e);
      UnitsUnescape(file, i + |UnitText(us[0])|, us[1..], style, VarAfter(v, us[0]));
    }
  }

  lemma NothingUnescaped(file: string, i: nat)
    requires i < |file|
    ensures Unescaped(file, i, i) == ""
  {
  }

  lemma UnitUnescapes(file: string, i: nat, u: Unit, style: Style, v: bool, e: nat)
    requires At(file, i, UnitText(u)) && UnitFine(u, style, v) && i + |UnitText(u)| <= e < |file|
    ensures Unescaped(file, i, e) ==
      (if u.Kept? then ['\\', u.c] else [u.c]) + Unescaped(file, i + |UnitText(u)|, e)
  {
    UnitChars(file, i, u);
    if u.Kept? {
      KeptUnescapes(file, i, u.c, e);
    }
  }

  // The backslash first, then the other character.
  lemma KeptUnescapes(file: string, i: nat, c: char, e: nat)
    requires i + 2 <= e < |file| && file[i] == '\\' && file[i + 1] == c && UnitFine(Kept(c), Bare, false)
    ensures Unescaped(file, i, e) == ['\\', c] + Unescaped(file, i + 2, e)
  {
    hide Unescaped;
    var rest := Unescaped(file, i + 2, e);
    OneUnescaped(file, i, e);
    OneUnescaped(file, i + 1, e);
    assert ['\\'] + ([c] + rest) == ['\\', c] + rest;
  }

  lemma OneUnescaped(file: string, i: nat, e: nat)
    requires i < e < |file|
    requires file[i] == '\\' ==> UnitFine(Kept(file[i + 1]), Bare, false)
    ensures Unescaped(file, i, e) == [file[i]] + Unescaped(file, i + 1, e)
  {
  }

  // ----- words -----

  /** The first unit of a word without quotes. */
  lemma FirstLeads(file: string, i: nat, t: Tok, u: Unit) returns (w: Tok)
    requires At(file, i, UnitText(u)) && t.f == START && UnitFine(u, Bare, false)
    requires u != Raw('}') && u != Raw('#') && u != Raw('"') && u != Raw('\'')
    ensures w.f == WordFlags(Bare, VarAfter(false, u)) && w.start == i && w.args == t.args
    ensures Leads(file, i, t, i + |UnitText(u)|, w, i < t.start + 4096)
  {
    hide Run, Fits, Unescaped, Leads;
    UnitChars(file, i, u);
    StepLeads(file, i, t);
    w := Step(file, i, t).t;
    if !u.Raw? {
      StepLeads(file, i + 1, w);
      var x := Step(file, i + 1, w).t;
      Further(file, i, t, i + 1, w, i < t.start + 4096, i + 2, x, i + 1 < i + 4096);
      w := x;
    }
  }

  // What stands in the buffer before the word ends.
  function Opened(w: Word): string {
    match w.style
    case Bare => UnitsText(w.units)
    case Single => ['\''] + UnitsText(w.units)
    case Double => ['"'] + UnitsText(w.units)
  }

  /** All of a word but its closing quote. */
  lemma OpenedLeads(file: string, i: nat, t: Tok, w: Word) returns (u: Tok)
    requires At(file, i, Opened(w)) && t.f == START && WordFine(w)
    ensures u.f == WordFlags(w.style, VarAfterAll(false, w.units)) && u.args == t.args
    ensures u.start == i + if w.style.Bare? then 0 else 1
    ensures i + |Opened(w)| <= |file| && At(file, u.start, UnitsText(w.units))
    ensures |Opened(w)| == |UnitsText(w.units)| + if w.style.Bare? then 0 else 1
    ensures Leads(file, i, t, i + |Opened(w)|, u, i < t.start + 4096 && |UnitsText(w.units)| <= 4096)
  {
    hide Leads, UnitText, At, Run, Fits, Unescaped;
    var us := w.units;
    var n := |UnitsText(us)|;
    AtInside(file, i, Opened(w));
    if w.style.Bare? {
      UnitsParts(file, i, us);
      var k := |UnitText(us[0])|;
      var x := FirstLeads(file, i, t, us[0]);
      u := UnitsLead(file, i + k, x, Bare, VarAfter(false, us[0]), us[1..]);
      Further(file, i, t, i + k, x, i < t.start + 4096, i + n, u, us[1..] == [] || n <= 4096);
      if us[1..] == [] {
        UnitIsShort(us);
      }
    } else {
      AtChar(file, i, Opened(w)[0], UnitsText(us));
      StepLeads(file, i, t);
      var x := Step(file, i, t).t;
      u := UnitsLead(file, i + 1, x, w.style, false, us);
      Further(file, i, t, i + 1, x, i < t.start + 4096, i + 1 + n, u, us == [] || n <= 4096);
    }
  }

  lemma UnitIsShort(us: seq<Unit>)
    requires us != [] && us[1..] == []
    ensures |UnitsText(us)| == |UnitText(us[0])| <= 2
  {
  }

  lemma QuotedParts(file: string, i: nat, w: Word)
    requires At(file, i, WordText(w)) && !w.style.Bare?
    ensures At(file, i, Opened(w)) && |WordText(w)| == |Opened(w)| + 1
    ensures i + |Opened(w)| < |file| && file[i + |Opened(w)|] == if w.style.Single? then '\'' else '"'
  {
    var q := if w.style.Single? then '\'' else '"';
    assert WordText(w) == Opened(w) + ([q] + "");
    AtParts(file, i, Opened(w), [q] + "");
    AtChar(file, i + |Opened(w)|, q, "");
  }

  /** A word in quotes, with its closing quote; something has to stand between it and the next word. */
  lemma QuotedReads(file: string, i: nat, t: Tok, w: Word) returns (u: Tok)
    requires At(file, i, WordText(w)) && t.f == START && WordFine(w) && !w.style.Bare?
    ensures u.f == START.(lastSpace := false, needSpace := true) && u.start == i + 1
    ensures u.args == t.args + [UnitsValue(w.units)]
    ensures Leads(file, i, t, i + |WordText(w)|, u, i < t.start + 4096 && |UnitsText(w.units)| < 4096)
  {
    hide Leads, At, UnitsText, Run, Fits, Unescaped, WordText, Opened;
    QuotedParts(file, i, w);
    var x := OpenedLeads(file, i, t, w);
    var n := |UnitsText(w.units)|;
    UnitsUnescape(file, i + 1, w.units, w.style, false);
    StepLeads(file, i + 1 + n, x);
    u := Step(file, i + 1 + n, x).t;
    Further(file, i, t, i + 1 + n, x, i < t.start + 4096 && n <= 4096, i + 2 + n, u, n < 4096);
  }

  /** A word and the blank behind it. */
  lemma WordReads(file: string, i: nat, t: Tok, w: Word) returns (u: Tok)
    requires At(file, i, WordText(w)) && t.f == START && WordFine(w)
    requires var j := i + |WordText(w)|; j < |file| && PieceFine(Space(file[j]))
    ensures u.f == START && u.start == (if w.style.Bare? then i else i + 1)
    ensures u.args == t.args + [UnitsValue(w.units)]
    ensures Leads(file, i, t, i + |WordText(w)| + 1, u, i < t.start + 4096 && Reach(w) < 4096)
    ensures i + |WordText(w)| == u.start + Reach(w)
  {
    hide Leads, At, UnitsText, Run, Fits, Unescaped;
    var j := i + |WordText(w)|;
    var n := |UnitsText(w.units)|;
    if w.style.Bare? {
      var x := OpenedLeads(file, i, t, w);
      UnitsUnescape(file, i, w.units, Bare, false);
      StepLeads(file, j, x);
      u := Step(file, j, x).t;
      Further(file, i, t, j, x, i < t.start + 4096 && n <= 4096, j + 1, u, n < 4096);
    } else {
      var x := QuotedReads(file, i, t, w);
      StepLeads(file, j, x);
      u := Step(file, j, x).t;
      Further(file, i, t, j, x, i < t.start + 4096 && n < 4096, j + 1, u, n + 1 < 4096);
    }
  }

  /** A word right before the end of its directive. */
  lemma LastWordReads(file: string, i: nat, t: Tok, w: Word)
    requires At(file, i, WordText(w)) && t.f == START && WordFine(w)
    requires var j := i + |WordText(w)|;
      j < |file| && (file[j] == ';' ||
      (file[j] == '{' && !(w.style.Bare? && VarAfterAll(false, w.units))))
    ensures var j := i + |WordText(w)|; var r := Run(file, i, t);
      r.code == (if file[j] == ';' then OK else BLOCK_START) && r.pos == j + 1 &&
      r.args == t.args + [UnitsValue(w.units)]
    ensures Fits(file, i, t) <==> i < t.start + 4096 && Reach(w) < 4096
  {
    hide At, UnitsText, Run, Fits, Unescaped;
    var j := i + |WordText(w)|;
    if w.style.Bare? {
      var x := OpenedLeads(file, i, t, w);
      UnitsUnescape(file, i, w.units, Bare, false);
      OneStep(file, j, x);
      FitsOn(file, j, x);
    } else {
      var x := QuotedReads(file, i, t, w);
      OneStep(file, j, x);
      FitsOn(file, j, x);
    }
  }

  // ----- between words -----

  lemma CommentLeads(file: string, i: nat, t: Tok, text: string) returns (u: Tok)
    requires At(file, i, text + ['\n']) && '\n' !in text && t.f == START.(sharpComment := true)
    ensures u.f == START && u.args == t.args && u.start == i + |text|
    ensures Leads(file, i, t, i + |text| + 1, u, i + |text| < t.start + 4096)
    decreases |text|
  {
    hide Leads, At, Run, Fits, Unescaped;
    if text == "" {
      assert text + ['\n'] == ['\n'] + "";
      AtChar(file, i, '\n', "");
      StepLeads(file, i, t);
      u := Step(file, i, t).t;
    } else {
      var rest := text[1..] + ['\n'];
      assert text + ['\n'] == [text[0]] + rest;
      AtChar(file, i, text[0], rest);
      StepLeads(file, i, t);
      var x := Step(file, i, t).t;
      u := CommentLeads(file, i + 1, x, text[1..]);
      Further(file, i, t, i + 1, x, i < t.start + 4096, i + |text| + 1, u, i + |text| < t.start + 4096);
    }
  }

  lemma PieceLeads(file: string, i: nat, t: Tok, p: Piece) returns (u: Tok)
    requires At(file, i, PieceText(p)) && PieceFine(p) && t.f == START
    ensures u.f == START && u.args == t.args && u.start + 1 == i + |PieceText(p)| <= |file|
    ensures Leads(file, i, t, i + |PieceText(p)|, u, i < t.start + 4096 && (p.Comment? ==> |p.text| + 1 < 4096))
  {
    hide Leads, At, Run, Fits, Unescaped;
    match p {
      case Space(c) =>
        AtChar(file, i, c, "");
        assert [c] + "" == [c];
        StepLeads(file, i, t);
        u := Step(file, i, t).t;
      case Comment(text) =>
        AtChar(file, i, '#', text + ['\n']);
        AtInside(file, i + 1, text + ['\n']);
        StepLeads(file, i, t);
        var x := Step(file, i, t).t;
        u := CommentLeads(file, i + 1, x, text);
        Further(file, i, t, i + 1, x, i < t.start + 4096, i + |text| + 2, u, |text| + 1 < 4096);
    }
  }

  /** Blanks and comments are passed over. */
  lemma {:induction false} GapLeads(file: string, i: nat, t: Tok, g: Gap) returns (u: Tok)
    requires At(file, i, GapText(g)) && GapFine(g) && t.f == START
    ensures u.f == START && u.args == t.args && i + |GapText(g)| <= |file|
    ensures if g == [] then u == t && |GapText(g)| == 0 else u.start + 1 == i + |GapText(g)|
    ensures Leads(file, i, t, i + |GapText(g)|, u, g == [] || (i < t.start + 4096 && ShortGap(g)))
    decreases g
  {
    hide Leads, At, PieceText, PieceFine;
    AtInside(file, i, GapText(g));
    if g == [] {
      Stays(file, i, t);
      return t;
    }
    var n := |PieceText(g[0])|;
    AtParts(file, i, PieceText(g[0]), GapText(g[1..]));
    var x := PieceLeads(file, i, t, g[0]);
    u := GapLeads(file, i + n, x, g[1..]);
    Further(file, i, t, i + n, x, i < t.start + 4096 && (g[0].Comment? ==> |g[0].text| + 1 < 4096),
      i + |GapText(g)|, u, g[1..] == [] || ShortGap(g[1..]));
  }

  // ----- directives -----

  /** The first argument, what is behind it, and the others. */
  lemma ArgumentParts(file: string, i: nat, args: seq<Argument>, c: char)
    requires args != [] && At(file, i, ArgumentsText(args) + [c])
    ensures var a := args[0]; var j := i + |WordText(a.word)|; var k := j + |GapText(a.gap)|;
      && At(file, i, WordText(a.word)) && At(file, j, GapText(a.gap)) && At(file, k, ArgumentsText(args[1..]) + [c])
      && i + |ArgumentsText(args)| == k + |ArgumentsText(args[1..])| < |file| && file[i + |ArgumentsText(args)|] == c
  {
    hide At, WordText, GapText;
    FirstArgument(file, i, args, [c]);
    AtParts(file, i, ArgumentsText(args), [c]);
    assert [c] + "" == [c];
    AtChar(file, i + |ArgumentsText(args)|, c, "");
  }

  // What the end of a directive means.
  ghost predicate Ended(file: string, i: nat, t: Tok, n: nat, c: char, values: seq<string>, short: bool) {
    && i + n < |file|
    && (var r := Run(file, i, t);
        r.code == (if c == ';' then OK else BLOCK_START) && r.pos == i + n + 1 && r.args == t.args + values)
    && (Fits(file, i, t) <==> i < t.start + 4096 && short)
  }

  lemma EndsNow(file: string, i: nat, t: Tok, c: char)
    requires At(file, i, [c]) && t.f == START && t.args != [] && (c == ';' || c == '{')
    ensures Ended(file, i, t, 0, c, [], true)
  {
    assert [c] + "" == [c];
    AtChar(file, i, c, "");
    hide Run, Fits;
    OneStep(file, i, t);
    FitsOn(file, i, t);
    assert t.args + [] == t.args;
  }

  lemma WordEnds(file: string, i: nat, t: Tok, a: Argument, c: char)
    requires At(file, i, ArgumentsText([a]) + [c]) && ArgumentsFine([a], c) && a.gap == [] && t.f == START
    requires c == ';' || c == '{'
    ensures Ended(file, i, t, |ArgumentsText([a])|, c, Values([a]), ShortArguments([a]))
  {
    hide At, Run, Fits, UnitsText, Reach;
    ArgumentParts(file, i, [a], c);
    LastWordReads(file, i, t, a.word);
  }

  lemma BlankBehind(file: string, i: nat, a: Argument)
    requires At(file, i + |WordText(a.word)|, GapText(a.gap)) && a.gap != [] && a.gap[0].Space? && GapFine(a.gap)
    ensures var j := i + |WordText(a.word)|;
      j < |file| && PieceFine(Space(file[j])) && At(file, j + 1, GapText(a.gap[1..]))
    ensures |GapText(a.gap)| == 1 + |GapText(a.gap[1..])| && GapFine(a.gap[1..])
    ensures ShortGap(a.gap) == ShortGap(a.gap[1..])
  {
    AtChar(file, i + |WordText(a.word)|, a.gap[0].c, GapText(a.gap[1..]));
  }

  /** An argument and the blanks and comments behind it. */
  lemma ArgumentLeads(file: string, i: nat, t: Tok, a: Argument) returns (u: Tok, ok: bool)
    requires At(file, i, WordText(a.word)) && At(file, i + |WordText(a.word)|, GapText(a.gap)) && t.f == START
    requires WordFine(a.word) && GapFine(a.gap) && a.gap != [] && a.gap[0].Space?
    ensures u.f == START && u.args == t.args + [UnitsValue(a.word.units)]
    ensures var k := i + |WordText(a.word)| + |GapText(a.gap)|;
      Leads(file, i, t, k, u, ok) && (ok && k < u.start + 4096 <==> i < t.start + 4096 && ShortArgument(a))
  {
    hide At, Leads, WordText, WordFine, Reach, GapText, GapFine, ShortGap, PieceFine;
    BlankBehind(file, i, a);
    var j := i + |WordText(a.word)|;
    var rest := a.gap[1..];
    var x := WordReads(file, i, t, a.word);
    u := GapLeads(file, j + 1, x, rest);
    var p, q := i < t.start + 4096 && Reach(a.word) < 4096, rest == [] || (j + 1 < x.start + 4096 && ShortGap(rest));
    ok := p && q;
    Further(file, i, t, j + 1, x, p, j + |GapText(a.gap)|, u, q);
    NoGap();
  }

  lemma NoGap()
    ensures ShortGap([])
  {
  }

  /** Behind a closing quote a closing parenthesis begins the next word. */
  lemma ParenthesisLeads(file: string, i: nat, t: Tok, a: Argument) returns (u: Tok, ok: bool)
    requires At(file, i, WordText(a.word)) && t.f == START && WordFine(a.word) && !a.word.style.Bare? && a.gap == []
    requires i + |WordText(a.word)| < |file| && file[i + |WordText(a.word)|] == ')'
    ensures u.f == START && u.args == t.args + [UnitsValue(a.word.units)]
    ensures var k := i + |WordText(a.word)|;
      Leads(file, i, t, k, u, ok) && (ok && k < u.start + 4096 <==> i < t.start + 4096 && ShortArgument(a))
  {
    hide At, WordText, WordFine, Unescaped, UnitsText, Leads;
    var x := QuotedReads(file, i, t, a.word);
    var k := i + |WordText(a.word)|;
    AfterQuote(file, i, t, a.word);
    u := x.(f := START);
    ok := i < t.start + 4096 && |UnitsText(a.word.units)| < 4096;
    ParenthesisStarts(file, k, x);
    Further(file, i, t, k, x, ok, k, u, true);
  }

  lemma AfterQuote(file: string, i: nat, t: Tok, w: Word)
    requires !w.style.Bare?
    ensures |WordText(w)| == Reach(w) + 1
  {
  }

  lemma ParenthesisStarts(file: string, k: nat, x: Tok)
    requires k < |file| && file[k] == ')' && x.f == START.(lastSpace := false, needSpace := true)
    ensures Leads(file, k, x, k, x.(f := START), true)
  {
    SameStep(file, k, x);
    hide Run, Fits, Step;
    OneStep(file, k, x);
    OneStep(file, k, x.(f := START));
    FitsOn(file, k, x);
    FitsOn(file, k, x.(f := START));
  }

  lemma SameStep(file: string, k: nat, x: Tok)
    requires k < |file| && file[k] == ')' && x.f == START.(lastSpace := false, needSpace := true)
    ensures Step(file, k, x) == Step(file, k, x.(f := START))
  {
    hide Unescaped;
  }

  lemma {:induction false} ParenthesisAt(file: string, j: nat, args: seq<Argument>, c: char)
    requires args != [] && At(file, j, ArgumentsText(args) + [c]) && OpensWithParenthesis(args[0].word)
    ensures j < |file| && file[j] == ')'
  {
    assert ArgumentsText(args)[0] == ')';
    assert file[j..j + |ArgumentsText(args) + [c]|][0] == ')';
  }

  /** The arguments are read as what they stand for, up to the character that ends the directive. */
  lemma {:induction false} ArgumentsRead(file: string, i: nat, t: Tok, args: seq<Argument>, c: char)
    requires At(file, i, ArgumentsText(args) + [c]) && ArgumentsFine(args, c) && t.f == START
    requires (args != [] || t.args != []) && (c == ';' || c == '{')
    ensures Ended(file, i, t, |ArgumentsText(args)|, c, Values(args), ShortArguments(args))
    decreases args
  {
    hide At, WordText, GapText, WordFine, ShortArgument, Ended, OpensWithParenthesis;
    if args == [] {
      assert ArgumentsText(args) + [c] == [c];
      EndsNow(file, i, t, c);
      return;
    }
    var a := args[0];
    if a.gap == [] && |args| == 1 {
      assert args == [a];
      WordEnds(file, i, t, a, c);
      return;
    }
    ArgumentParts(file, i, args, c);
    var k := i + |WordText(a.word)| + |GapText(a.gap)|;
    var u, ok;
    if a.gap == [] {
      NoGapText();
      ParenthesisAt(file, k, args[1..], c);
      u, ok := ParenthesisLeads(file, i, t, a);
    } else {
      u, ok := ArgumentLeads(file, i, t, a);
    }
    ArgumentsRead(file, k, u, args[1..], c);
    EndedEarlier(file, i, t, ok, k, u, UnitsValue(a.word.units), |ArgumentsText(args[1..])|, c, Values(args[1..]),
      ShortArguments(args[1..]), ShortArguments(args));
  }

  lemma NoGapText()
    ensures GapText([]) == ""
  {
  }

  lemma EndedEarlier(file: string, i: nat, t: Tok, ok: bool, k: nat, u: Tok, value: string, n: nat, c: char,
    values: seq<string>, short: bool, all: bool)
    requires Leads(file, i, t, k, u, ok) && Ended(file, k, u, n, c, values, short) && i <= k
    requires u.args == t.args + [value] && (ok && k < u.start + 4096 && short <==> i < t.start + 4096 && all)
    ensures Ended(file, i, t, k - i + n, c, [value] + values, all)
  {
    hide Run, Fits;
    assert t.args + ([value] + values) == u.args + values;
  }

  // ----- configurations -----

  /** A directive, or the head of a block, with what stands in front of it. */
  lemma HeadReads(file: string, at: nat, line: nat, before: Gap, args: seq<Argument>, c: char)
    requires At(file, at, GapText(before) + (ArgumentsText(args) + [c])) && (c == ';' || c == '{')
    requires GapFine(before) && args != [] && ArgumentsFine(args, c)
    ensures var r := Buffered(file, at, line);
      if ShortGap(before) && ShortArguments(args) then
        r.code == (if c == ';' then OK else BLOCK_START) && r.args == Values(args) &&
        r.pos == at + |GapText(before)| + |ArgumentsText(args)| + 1
      else r.code == ERROR
  {
    hide GapText, ArgumentsText, At, ArgumentsFine, GapFine, ShortArguments, Values, Run, Fits;
    var t := Tok(START, at, line, line, []);
    AtParts(file, at, GapText(before), ArgumentsText(args) + [c]);
    var u := GapLeads(file, at, t, before);
    ArgumentsRead(file, at + |GapText(before)|, u, args, c);
    assert [] + Values(args) == Values(args);
  }

  /** The end of a block. */
  lemma CloseReads(file: string, at: nat, line: nat, g: Gap)
    requires At(file, at, GapText(g) + "}") && GapFine(g)
    ensures var r := Buffered(file, at, line);
      if ShortGap(g) then r.code == BLOCK_DONE && r.pos == at + |GapText(g)| + 1 else r.code == ERROR
  {
    hide GapText, At, GapFine, Run, Fits;
    var t := Tok(START, at, line, line, []);
    AtParts(file, at, GapText(g), "}");
    var u := GapLeads(file, at, t, g);
    var j := at + |GapText(g)|;
    assert ['}'] + "" == "}";
    AtChar(file, j, '}', "");
    OneStep(file, j, u);
    FitsOn(file, j, u);
  }

  /** The end of the file. */
  lemma EndReads(file: string, at: nat, line: nat, g: Gap)
    requires At(file, at, GapText(g)) && at + |GapText(g)| == |file| && GapFine(g)
    ensures var r := Buffered(file, at, line);
      if ShortGap(g) then r.code == FILE_DONE && r.pos == |file| else r.code == ERROR
  {
    hide GapText, At, GapFine;
    var t := Tok(START, at, line, line, []);
    var u := GapLeads(file, at, t, g);
  }

  lemma TextOnce(xs: seq<Source>)
    requires xs != []
    ensures var x := xs[0]; var head := GapText(x.before) + (ArgumentsText(x.args) + [Ender(x)]);
      Text(xs) == if x.Section? then head + (Text(x.body) + (GapText(x.close) + "}") + Text(xs[1..]))
        else head + Text(xs[1..])
  {
    hide GapText, ArgumentsText;
    assert "" + Text(xs[1..]) == Text(xs[1..]);
  }

  /** The head of the first item, its body, and what follows. */
  lemma TextParts(file: string, at: nat, xs: seq<Source>, end: string)
    requires xs != [] && At(file, at, Text(xs) + end)
    ensures var x := xs[0]; var n := |GapText(x.before)| + |ArgumentsText(x.args)| + 1;
      && At(file, at, GapText(x.before) + (ArgumentsText(x.args) + [Ender(x)]))
      && if x.Section? then var m := n + |Text(x.body)| + |GapText(x.close)| + 1;
           && At(file, at + n, Text(x.body) + (GapText(x.close) + "}"))
           && At(file, at + m, Text(xs[1..]) + end) && |Text(xs)| == m + |Text(xs[1..])|
         else At(file, at + n, Text(xs[1..]) + end) && |Text(xs)| == n + |Text(xs[1..])|
  {
    hide At, GapText, ArgumentsText, Text;
    TextOnce(xs);
    var x, rest := xs[0], Text(xs[1..]) + end;
    var head := GapText(x.before) + (ArgumentsText(x.args) + [Ender(x)]);
    if x.Section? {
      var body := Text(x.body) + (GapText(x.close) + "}");
      assert Text(xs) + end == head + (body + rest);
      AtParts(file, at, head, body + rest);
      AtParts(file, at + |head|, body, rest);
    } else {
      assert Text(xs) + end == head + rest;
      AtParts(file, at, head, rest);
    }
  }

  /** However it is spelled, a configuration is read with all its blocks as what it stands for, if and only if no
      word and no comment is too long for the buffer. */
  lemma {:induction false} FileReads(file: string, at: nat, line: nat, xs: seq<Source>, close: Gap, block: bool)
    requires Fine(xs) && GapFine(close) && At(file, at, Text(xs) + (GapText(close) + if block then "}" else ""))
    requires !block ==> at + |Text(xs)| + |GapText(close)| == |file|
    ensures var p := Tree(file, at, line, block);
      if AllShort(xs) && ShortGap(close) then
        p.Parsed? && p.items == Meaning(xs) && p.pos == at + |Text(xs)| + |GapText(close)| + if block then 1 else 0
      else p.Failed?
    decreases xs
  {
    hide Buffered, Text, At, GapText, ArgumentsText, ArgumentsFine, GapFine, ShortArguments, ShortGap, Values;
    var end := GapText(close) + if block then "}" else "";
    if xs == [] {
      NoText(end);
      if block {
        CloseReads(file, at, line, close);
      } else {
        assert end == GapText(close);
        EndReads(file, at, line, close);
      }
      return;
    }
    var x := xs[0];
    TextParts(file, at, xs, end);
    HeadReads(file, at, line, x.before, x.args, Ender(x));
    var r := Buffered(file, at, line);
    if !ShortGap(x.before) || !ShortArguments(x.args) {
      return;
    }
    if x.Section? {
      FileReads(file, r.pos, r.line, x.body, x.close, true);
      var b := Tree(file, r.pos, r.line, true);
      if b.Parsed? {
        FileReads(file, b.pos, b.line, xs[1..], close, block);
      }
    } else {
      FileReads(file, r.pos, r.line, xs[1..], close, block);
    }
  }

  lemma NoText(end: string)
    ensures Text([]) == "" && "" + end == end
  {
  }

  /** A last comment without a line feed. */
  lemma LastCommentReads(file: string, at: nat, line: nat, g: Gap, text: string)
    requires At(file, at, GapText(g) + (['#'] + text)) && GapFine(g) && '\n' !in text
    requires at + |GapText(g)| + 1 + |text| == |file|
    ensures var r := Buffered(file, at, line);
      if ShortGap(g) && |text| < 4096 then r.code == FILE_DONE && r.pos == |file| && r.args == [] else r.code == ERROR
  {
    hide GapText, At, GapFine, Run, Fits;
    var t := Tok(START, at, line, line, []);
    AtParts(file, at, GapText(g), ['#'] + text);
    var u := GapLeads(file, at, t, g);
    var j := at + |GapText(g)|;
    AtChar(file, j, '#', text);
    OneStep(file, j, u);
    FitsOn(file, j, u);
    CommentToEnd(file, j + 1, Step(file, j, u).t, text);
  }

  /** From inside a comment to the end of the file. */
  lemma {:induction false} CommentToEnd(file: string, i: nat, t: Tok, text: string)
    requires At(file, i, text) && i + |text| == |file| && '\n' !in text && t.f == START.(sharpComment := true)
    ensures Run(file, i, t) == Reading(if t.args == [] then FILE_DONE else ERROR, |file|, t.line, t.args)
    ensures Fits(file, i, t) <==> text == "" || |file| <= t.start + 4096
    decreases |text|
  {
    if text != "" {
      assert text == [text[0]] + text[1..];
      AtChar(file, i, text[0], text[1..]);
      hide At, Run, Fits;
      OneStep(file, i, t);
      FitsOn(file, i, t);
      CommentToEnd(file, i + 1, t, text[1..]);
    }
  }

  /** A comment of 4097 bytes: nothing is in the file, and reading it through the buffer is an error. */
  lemma CommentExample(file: string)
    requires |file| == 4097 && forall k :: 0 <= k < |file| ==> file[k] == '#'
    ensures Token(file, 0, 1) == Reading(FILE_DONE, |file|, 1, [])
    ensures !Fits(file, 0, Tok(START, 0, 1, 1, []))
  {
    hide Run, Fits;
    var t := Tok(START, 0, 1, 1, []);
    OneStep(file, 0, t);
    FitsOn(file, 0, t);
    CommentToEnd(file, 1, Step(file, 0, t).t, file[1..]);
  }

  // ----- what is refused -----

  /** A directive has to have a name, and a block ends behind complete directives only. */
  lemma Misplaced(file: string, at: nat, line: nat, before: Gap, args: seq<Argument>, c: char)
    requires GapFine(before) && At(file, at, GapText(before) + (ArgumentsText(args) + [c]))
    requires if args == [] then c == ';' || c == '{' else c == '}' && Complete(args)
    ensures Buffered(file, at, line).code == ERROR
  {
    hide GapText, ArgumentsText, At, ArgumentsFine, GapFine, Run, Fits, Complete;
    var t := Tok(START, at, line, line, []);
    AtParts(file, at, GapText(before), ArgumentsText(args) + [c]);
    var u := GapLeads(file, at, t, before);
    var j := at + |GapText(before)|;
    if args == [] {
      NoArguments();
      assert ArgumentsText(args) + [c] == [c] + "";
      AtChar(file, j, c, "");
      OneStep(file, j, u);
    } else {
      var v := CompleteLead(file, j, u, args, [c]);
      assert [c] + "" == [c];
      AtChar(file, j + |ArgumentsText(args)|, c, "");
      OneStep(file, j + |ArgumentsText(args)|, v);
    }
  }

  /** The file does not end behind arguments. */
  lemma Unfinished(file: string, at: nat, line: nat, before: Gap, args: seq<Argument>)
    requires GapFine(before) && At(file, at, GapText(before) + ArgumentsText(args)) && args != [] && Complete(args)
    requires at + |GapText(before)| + |ArgumentsText(args)| == |file|
    ensures Buffered(file, at, line).code == ERROR
  {
    hide GapText, ArgumentsText, At, ArgumentsFine, GapFine, Fits, Complete;
    var t := Tok(START, at, line, line, []);
    AtParts(file, at, GapText(before), ArgumentsText(args));
    var u := GapLeads(file, at, t, before);
    assert ArgumentsText(args) + "" == ArgumentsText(args);
    var v := CompleteLead(file, at + |GapText(before)|, u, args, "");
  }

  /** Nor inside a word. */
  lemma UnfinishedWord(file: string, i: nat, t: Tok, w: Word)
    requires At(file, i, Opened(w)) && i + |Opened(w)| == |file| && t.f == START && WordFine(w)
    ensures Run(file, i, t).code == ERROR
  {
    hide At, UnitsText, Unescaped, Opened, Fits;
    var u := OpenedLeads(file, i, t, w);
  }

  lemma NoArguments()
    ensures ArgumentsText([]) == ""
  {
  }

  /** Arguments with something behind each. */
  predicate Complete(args: seq<Argument>) {
    args == [] ||
    var a := args[0];
    WordFine(a.word) && GapFine(a.gap) && a.gap != [] && a.gap[0].Space? && Complete(args[1..])
  }

  lemma {:induction false} CompleteLead(file: string, i: nat, t: Tok, args: seq<Argument>, end: string)
    returns (u: Tok)
    requires At(file, i, ArgumentsText(args) + end) && Complete(args) && t.f == START
    ensures u.f == START && u.args == t.args + Values(args) && i + |ArgumentsText(args)| <= |file|
    ensures Run(file, i, t) == Run(file, i + |ArgumentsText(args)|, u) && At(file, i + |ArgumentsText(args)|, end)
    decreases args
  {
    hide At, WordText, GapText, WordFine, GapFine, Run, UnitsValue;
    AtParts(file, i, ArgumentsText(args), end);
    AtInside(file, i, ArgumentsText(args));
    if args == [] {
      assert t.args + Values(args) == t.args;
      return t;
    }
    var a := args[0];
    var k := i + |WordText(a.word)| + |GapText(a.gap)|;
    FirstArgument(file, i, args, end);
    var v := ArgumentRuns(file, i, t, a);
    u := CompleteLead(file, k, v, args[1..], end);
    assert v.args + Values(args[1..]) == t.args + Values(args);
  }

  lemma ArgumentRuns(file: string, i: nat, t: Tok, a: Argument) returns (u: Tok)
    requires At(file, i, WordText(a.word)) && At(file, i + |WordText(a.word)|, GapText(a.gap)) && t.f == START
    requires WordFine(a.word) && GapFine(a.gap) && a.gap != [] && a.gap[0].Space?
    ensures u.f == START && u.args == t.args + [UnitsValue(a.word.units)]
    ensures var k := i + |WordText(a.word)| + |GapText(a.gap)|; k <= |file| && Run(file, i, t) == Run(file, k, u)
  {
    hide At, WordText, GapText, WordFine, GapFine, Run, Fits, ShortArgument;
    var ok;
    u, ok := ArgumentLeads(file, i, t, a);
  }

  lemma {:induction false} FirstArgument(file: string, i: nat, args: seq<Argument>, end: string)
    requires args != [] && At(file, i, ArgumentsText(args) + end)
    ensures var a := args[0]; var j := i + |WordText(a.word)|; var k := j + |GapText(a.gap)|;
      && At(file, i, WordText(a.word)) && At(file, j, GapText(a.gap)) && At(file, k, ArgumentsText(args[1..]) + end)
      && i + |ArgumentsText(args)| == k + |ArgumentsText(args[1..])|
  {
    hide At, WordText, GapText;
    var a := args[0];
    var rest := ArgumentsText(args[1..]) + end;
    assert ArgumentsText(args) + end == WordText(a.word) + (GapText(a.gap) + rest);
    AtParts(file, i, WordText(a.word), GapText(a.gap) + rest);
    AtParts(file, i + |WordText(a.word)|, GapText(a.gap), rest);
  }

  /** Behind a closing quote stands a blank, `;`, `{` or `)`, and nothing else. */
  lemma BadBehindQuote(file: string, i: nat, t: Tok, w: Word)
    requires At(file, i, WordText(w)) && t.f == START && WordFine(w) && !w.style.Bare?
    requires var j := i + |WordText(w)|; j < |file| && !PieceFine(Space(file[j])) && file[j] !in ";{)"
    ensures Run(file, i, t).code == ERROR
  {
    hide At, Run, Fits, Unescaped, WordText, UnitsText;
    var u := QuotedReads(file, i, t, w);
    OneStep(file, i + |WordText(w)|, u);
  }

  // ----- lines -----

  function LineFeeds(file: string, i: nat, j: nat): nat
    requires i <= j <= |file|
    decreases j - i
  {
    if i == j then 0 else (if file[i] == '\n' then 1 else 0) + LineFeeds(file, i + 1, j)
  }

  /** Whatever is in the file, the line is counted up by the line feeds that were read. */
  lemma {:induction false} LinesCount(file: string, i: nat, t: Tok)
    requires i <= |file|
    ensures var r := Run(file, i, t); r.line == t.line + LineFeeds(file, i, r.pos)
    decreases |file| - i
  {
    if i < |file| {
      hide Run, Unescaped;
      OneStep(file, i, t);
      StepLine(file, i, t);
      hide Step;
      if Step(file, i, t).More? {
        LinesCount(file, i + 1, Step(file, i, t).t);
      }
    }
  }

  lemma StepLine(file: string, i: nat, t: Tok)
    requires i < |file|
    ensures Step(file, i, t).t.line == t.line + if file[i] == '\n' then 1 else 0
  {
  }

  lemma {:induction false} LineFeedsSplit(file: string, i: nat, j: nat, k: nat)
    requires i <= j <= k <= |file|
    ensures LineFeeds(file, i, k) == LineFeeds(file, i, j) + LineFeeds(file, j, k)
    decreases j - i
  {
    if i < j {
      LineFeedsSplit(file, i + 1, j, k);
    }
  }

  /** The line of a configuration that was read is right, too. */
  lemma {:induction false} TreeLines(file: string, at: nat, line: nat, block: bool)
    requires at <= |file|
    ensures var p := Tree(file, at, line, block); p.Parsed? ==> p.line == line + LineFeeds(file, at, p.pos)
    decreases |file| - at
  {
    hide Run, Fits, Before;
    var r := Buffered(file, at, line);
    LinesCount(file, at, Tok(START, at, line, line, []));
    hide Buffered;
    if r.code == OK {
      TreeLines(file, r.pos, r.line, block);
      BeforeKeeps(Simple(r.args), Tree(file, r.pos, r.line, block));
      var p := Tree(file, r.pos, r.line, block);
      if p.Parsed? {
        LineFeedsSplit(file, at, r.pos, p.pos);
      }
    } else if r.code == BLOCK_START {
      TreeLines(file, r.pos, r.line, true);
      var b := Tree(file, r.pos, r.line, true);
      if b.Parsed? {
        TreeLines(file, b.pos, b.line, block);
        var p := Tree(file, b.pos, b.line, block);
        BeforeKeeps(Block(r.args, b.items), p);
        if p.Parsed? {
          LineFeedsSplit(file, at, r.pos, b.pos);
          LineFeedsSplit(file, at, b.pos, p.pos);
        }
      }
    }
  }

  lemma BeforeKeeps(x: Item, p: Parsed)
    ensures Before(x, p).Parsed? == p.Parsed?
    ensures p.Parsed? ==> Before(x, p).pos == p.pos && Before(x, p).line == p.line
  {
  }

  // ----- everything can be spelled -----

  /** A string in double quotes, with a backslash before quotes and backslashes. */
  function QuotedUnits(s: string): seq<Unit> {
    if s == "" then [] else [if s[0] == '"' || s[0] == '\\' then Coded(s[0]) else Raw(s[0])] + QuotedUnits(s[1..])
  }

  // One blank between the arguments.
  function QuotedArguments(args: seq<string>): seq<Argument> {
    if args == [] then []
    else
      var gap := if |args| == 1 then [] else [Space(' ')];
      [Argument(Word(Double, QuotedUnits(args[0])), gap)] + QuotedArguments(args[1..])
  }

  // One directive on a line.
  function Spelled(xs: seq<Item>): seq<Source> {
    if xs == [] then []
    else
      var head, args := [Space('\n')], QuotedArguments(xs[0].args);
      [if xs[0].Block? then Section(head, args, Spelled(xs[0].body), head) else Directive(head, args)] +
      Spelled(xs[1..])
  }

  predicate Named(xs: seq<Item>) {
    xs == [] || (xs[0].args != [] && (xs[0].Block? ==> Named(xs[0].body)) && Named(xs[1..]))
  }

  lemma {:induction false} QuotedUnitsMean(s: string, v: bool)
    ensures AllFine(QuotedUnits(s), Double, v) && UnitsValue(QuotedUnits(s)) == s
    decreases s
  {
    if s != "" {
      QuotedUnitsMean(s[1..], VarAfter(v, QuotedUnits(s)[0]));
      assert s == [s[0]] + s[1..];
    }
  }

  lemma OneBlank()
    ensures GapFine([]) && GapFine([Space(' ')]) && GapText([]) == "" && GapText([Space(' ')]) == " "
  {
  }

  lemma {:induction false} QuotedArgumentsMean(args: seq<string>, c: char)
    ensures ArgumentsFine(QuotedArguments(args), c) && Values(QuotedArguments(args)) == args
    ensures |QuotedArguments(args)| == |args|
  {
    if args != [] {
      QuotedArgumentsMean(args[1..], c);
      QuotedUnitsMean(args[0], false);
      OneBlank();
      hide AllFine, QuotedUnits, UnitsValue, GapFine;
      assert args == [args[0]] + args[1..];
    }
  }

  /** Every configuration of directives with names has a spelling, whatever bytes are in the arguments. */
  lemma {:induction false} SpelledMeans(xs: seq<Item>)
    requires Named(xs)
    ensures Fine(Spelled(xs)) && Meaning(Spelled(xs)) == xs
  {
    if xs != [] {
      var x := xs[0];
      QuotedArgumentsMean(x.args, if x.Block? then '{' else ';');
      hide ArgumentsFine, QuotedArguments, Values;
      if x.Block? {
        SpelledMeans(x.body);
      }
      SpelledMeans(xs[1..]);
      assert xs == [x] + xs[1..];
    }
  }

  // ----- plain words -----

  predicate PlainChar(c: char) {
    c !in " \t\r\n;{}\"'\\#$"
  }

  ghost predicate PlainWord(s: string) {
    s != "" && forall k :: 0 <= k < |s| ==> PlainChar(s[k])
  }

  function RawUnits(s: string): seq<Unit> {
    if s == "" then [] else [Raw(s[0])] + RawUnits(s[1..])
  }

  function PlainArguments(words: seq<string>): seq<Argument> {
    if words == [] then []
    else
      [Argument(Word(Bare, RawUnits(words[0])), if |words| == 1 then [] else [Space(' ')])] + PlainArguments(words[1..])
  }

  lemma {:induction false} PlainUnits(s: string, v: bool)
    requires forall k :: 0 <= k < |s| ==> PlainChar(s[k])
    ensures AllFine(RawUnits(s), Bare, v) && UnitsText(RawUnits(s)) == s && UnitsValue(RawUnits(s)) == s
    ensures s != "" || !v ==> !VarAfterAll(v, RawUnits(s))
    decreases s
  {
    if s != "" {
      PlainUnits(s[1..], VarAfter(v, Raw(s[0])));
      assert s == [s[0]] + s[1..];
    }
  }

  lemma {:induction false} JoinFirst(sep: char, p: string, ps: seq<string>)
    requires ps != []
    ensures Join(sep, [p] + ps) == p + ([sep] + Join(sep, ps))
  {
    var n := |ps| - 1;
    assert ([p] + ps)[..n + 1] == [p] + ps[..n];
    if n > 0 {
      JoinFirst(sep, p, ps[..n]);
    }
  }

  lemma {:induction false} PlainArgumentsMean(words: seq<string>, c: char)
    requires words != [] && forall k :: 0 <= k < |words| ==> PlainWord(words[k])
    ensures var args := PlainArguments(words);
      ArgumentsFine(args, c) && Values(args) == words && ArgumentsText(args) == Join(' ', words)
  {
    var w := words[0];
    PlainWordFine(w);
    OneBlank();
    hide UnitsText, UnitsValue, VarAfterAll, RawUnits, PlainWord, WordFine, GapFine, GapText;
    if |words| == 1 {
      assert words[1..] == [] && words == [w];
      assert w + ("" + "") == w;
    } else {
      PlainArgumentsMean(words[1..], c);
      assert words == [w] + words[1..];
      JoinFirst(' ', w, words[1..]);
    }
  }

  lemma PlainWordFine(w: string)
    requires PlainWord(w)
    ensures var x := Word(Bare, RawUnits(w));
      WordFine(x) && WordText(x) == w && UnitsValue(x.units) == w && !VarAfterAll(false, x.units)
  {
    PlainUnits(w, false);
    PlainFirst(w);
  }

  lemma PlainFirst(w: string)
    requires PlainWord(w)
    ensures RawUnits(w) != [] && RawUnits(w)[0] == Raw(w[0])
    ensures w[0] != '}' && w[0] != '#' && w[0] != '"' && w[0] != '\''
  {
  }

  /** Words of ordinary characters with a blank between them are the arguments. */
  lemma PlainWordsRead(file: string, at: nat, line: nat, words: seq<string>, c: char)
    requires words != [] && forall k :: 0 <= k < |words| ==> PlainWord(words[k])
    requires At(file, at, Join(' ', words) + [c]) && (c == ';' || c == '{')
    ensures var r := Token(file, at, line);
      r.code == (if c == ';' then OK else BLOCK_START) && r.args == words && r.pos == at + |Join(' ', words)| + 1
  {
    hide At, ArgumentsText, ArgumentsFine, Values, Join, Run, Fits;
    PlainArgumentsMean(words, c);
    ArgumentsRead(file, at, Tok(START, at, line, line, []), PlainArguments(words), c);
    assert [] + words == words;
  }
}
