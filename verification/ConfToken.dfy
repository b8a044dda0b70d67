/** The tokenizer of ngx_conf_file.c over a whole text: what ngx_conf_read_token is to compute
    whatever its window on the file is. */
module ConfToken {

  const LF := '\n'
  const CR := '\r'
  const TAB := '\t'

  datatype Code = Ok | BlockStart | BlockDone | FileDone | Error | TooLong

  /** The flags of ngx_conf_read_token. */
  datatype Flags = Flags(
    needSpace: bool, lastSpace: bool, comment: bool, variable: bool,
    quoted: bool, singleQuoted: bool, doubleQuoted: bool)

  /** Its other variables. */
  datatype State = State(start: nat, startLine: nat, line: nat, words: seq<string>, flags: Flags)

  function Init(start: nat, line: nat): State {
    State(start, line, line, [], Flags(false, true, false, false, false, false, false))
  }

  predicate Space(ch: char) { ch == ' ' || ch == TAB || ch == CR || ch == LF }

  /** What a character makes the tokenizer do. */
  datatype Action =
    | Keep(flags: Flags)
    | Begin(skip: nat, flags: Flags)  // a word starts here, or behind a quote
    | End(flags: Flags)               // a word ends before here
    | Halt(code: Code)

  /** Between words. */
  function BetweenWords(ch: char, f: Flags, noWords: bool): Action {
    if Space(ch) then Keep(f)
    else if ch == ';' || ch == '{' then Halt(if noWords then Error else if ch == '{' then BlockStart else Ok)
    else if ch == '}' then Halt(if noWords then BlockDone else Error)
    else if ch == '#' then Begin(0, f.(comment := true))
    else if ch == '\\' then Begin(0, f.(quoted := true, lastSpace := false))
    else if ch == '"' then Begin(1, f.(doubleQuoted := true, lastSpace := false))
    else if ch == '\'' then Begin(1, f.(singleQuoted := true, lastSpace := false))
    else Begin(0, f.(lastSpace := false))
  }

  /** In a word. */
  function InWord(ch: char, f0: Flags): Action {
    if ch == '{' && f0.variable then Keep(f0)
    else
      var f := f0.(variable := false);
      if ch == '\\' then Keep(f.(quoted := true))
      else if ch == '$' then Keep(f.(variable := true))
      else if f.doubleQuoted then
        if ch == '"' then End(f.(doubleQuoted := false, needSpace := true)) else Keep(f)
      else if f.singleQuoted then
        if ch == '\'' then End(f.(singleQuoted := false, needSpace := true)) else Keep(f)
      else if Space(ch) || ch == ';' || ch == '{' then End(f.(lastSpace := true))
      else Keep(f)
  }

  function AnyWhere(ch: char, f: Flags, noWords: bool): Action {
    if f.lastSpace then BetweenWords(ch, f, noWords) else InWord(ch, f)
  }

  /** What the character does; a line feed has ended the comment already. */
  function Act(ch: char, f: Flags, noWords: bool): Action {
    if f.comment then Keep(f)
    else if f.quoted then Keep(f.(quoted := false))
    else if f.needSpace then
      if Space(ch) then Keep(f.(lastSpace := true, needSpace := false))
      else if ch == ';' then Halt(Ok)
      else if ch == '{' then Halt(BlockStart)
      else if ch == ')' then AnyWhere(ch, f.(lastSpace := true, needSpace := false), noWords)
      else Halt(Error)
    else AnyWhere(ch, f, noWords)
  }

  /** The characters from src to end with their escapes resolved; a backslash looks at the
      character behind it. */
  function Decode(text: string, src: nat, end: nat): string
    requires end < |text|
    decreases end - src
  {
    if src >= end then ""
    else if text[src] == '\\' then
      var next := text[src + 1];
      if next == '"' || next == '\'' || next == '\\' then [next] + Decode(text, src + 2, end)
      else if next == 't' then [TAB] + Decode(text, src + 2, end)
      else if next == 'r' then [CR] + Decode(text, src + 2, end)
      else if next == 'n' then [LF] + Decode(text, src + 2, end)
      else ['\\'] + Decode(text, src + 1, end)
    else [text[src]] + Decode(text, src + 1, end)
  }

  datatype Move = Go(st: State) | Stop(code: Code, st: State)

  /** A line feed counts a line and ends a comment. */
  function AfterLine(ch: char, st: State): State {
    if ch == LF then st.(line := st.line + 1, flags := st.flags.(comment := false)) else st
  }

  /** The effect of an action at p. */
  function Apply(text: string, p: nat, st: State, a: Action): Move
    requires p < |text|
  {
    match a
    case Keep(f) => Go(st.(flags := f))
    case Begin(skip, f) => Go(st.(start := p + skip, startLine := st.line, flags := f))
    case End(f) =>
      var st' := st.(words := st.words + [Decode(text, st.start, p)], flags := f);
      if text[p] == ';' then Stop(Ok, st') else if text[p] == '{' then Stop(BlockStart, st') else Go(st')
    case Halt(code) => Stop(code, st)
  }

  /** The character at p. */
  function Step(text: string, p: nat, st0: State): Move
    requires p < |text|
  {
    var st := AfterLine(text[p], st0);
    Apply(text, p, st, Act(text[p], st.flags, st.words == []))
  }

  datatype Outcome = Outcome(code: Code, st: State, pos: nat)

  /** The next token of the text from p. */
  function Run(text: string, p: nat, st: State): Outcome
    decreases |text| - p
  {
    if p >= |text| then Outcome(if st.words != [] || !st.flags.lastSpace then Error else FileDone, st, p)
    else
      match Step(text, p, st)
      case Stop(code, st') => Outcome(code, st', p + 1)
      case Go(st') => Run(text, p + 1, st')
  }

  /** Reading from p0 in state st0 comes to p in state st. */
  predicate Comes(text: string, p0: nat, st0: State, p: nat, st: State)
    decreases |text| - p0
  {
    if p0 >= p then p0 == p && st0 == st
    else p0 < |text| && Step(text, p0, st0).Go? && Comes(text, p0 + 1, Step(text, p0, st0).st, p, st)
  }

  lemma {:induction false} ComesOn(text: string, p0: nat, st0: State, p: nat, st: State)
    requires Comes(text, p0, st0, p, st) && p < |text| && Step(text, p, st).Go?
    ensures Comes(text, p0, st0, p + 1, Step(text, p, st).st)
    decreases |text| - p0
  {
    if p0 < p {
      ComesOn(text, p0 + 1, Step(text, p0, st0).st, p, st);
    }
  }

  lemma {:induction false} RunFrom(text: string, p0: nat, st0: State, p: nat, st: State)
    requires Comes(text, p0, st0, p, st)
    ensures Run(text, p0, st0) == Run(text, p, st)
    decreases |text| - p0
  {
    if p0 < p {
      RunFrom(text, p0 + 1, Step(text, p0, st0).st, p, st);
    }
  }

  /** A token takes at least one character, if there is one left. */
  lemma {:induction false} RunProgresses(text: string, p: nat, st: State)
    ensures p < |text| ==> p < Run(text, p, st).pos <= |text|
    ensures p >= |text| ==> Run(text, p, st).pos == p
    decreases |text| - p
  {
    if p < |text| && Step(text, p, st).Go? {
      RunProgresses(text, p + 1, Step(text, p, st).st);
    }
  }

  lemma {:induction false} RunIsNotTooLong(text: string, p: nat, st: State)
    ensures Run(text, p, st).code != TooLong
    decreases |text| - p
  {
    if p < |text| && Step(text, p, st).Go? {
      RunIsNotTooLong(text, p + 1, Step(text, p, st).st);
    }
  }

  // ---------------------------------------------------------------- a window on the text

  /** The window holds the part of the text that begins at d. */
  ghost predicate Window(text: string, d: nat, w: string) {
    d + |w| <= |text| && text[d..d + |w|] == w
  }

  function Shift(st: State, d: nat): State { st.(start := d + st.start) }

  function ShiftMove(m: Move, d: nat): Move {
    match m
    case Go(st) => Go(Shift(st, d))
    case Stop(code, st) => Stop(code, Shift(st, d))
  }

  lemma SameChar(text: string, d: nat, w: string, p: nat)
    requires Window(text, d, w) && p < |w|
    ensures text[d + p] == w[p]
  {
    assert text[d..d + |w|][p] == w[p];
  }

  lemma {:induction false} DecodeInWindow(text: string, d: nat, w: string, src: nat, end: nat)
    requires Window(text, d, w) && end < |w|
    ensures Decode(text, d + src, d + end) == Decode(w, src, end)
    decreases end - src
  {
    hide Window;
    assert d + end < |text| by {
      WindowFits(text, d, w);
    }
    if src < end {
      SameChar(text, d, w, src);
      SameChar(text, d, w, src + 1);
      DecodeInWindow(text, d, w, src + 1, end);
      DecodeInWindow(text, d, w, src + 2, end);
      assert d + src + 1 == d + (src + 1) && d + src + 2 == d + (src + 2);
    }
  }

  lemma WindowFits(text: string, d: nat, w: string)
    requires Window(text, d, w)
    ensures d + |w| <= |text|
  {
  }

  /** A step in the window is the step in the text. */
  lemma StepInWindow(text: string, d: nat, w: string, p: nat, st: State)
    requires Window(text, d, w) && p < |w|
    ensures Step(text, d + p, Shift(st, d)) == ShiftMove(Step(w, p, st), d)
  {
    hide Act, Decode;
    SameChar(text, d, w, p);
    DecodeInWindow(text, d, w, st.start, p);
  }

  lemma BeginsHere(ch: char, f: Flags, noWords: bool)
    ensures Act(ch, f, noWords).Begin? ==> Act(ch, f, noWords).skip <= 1
  {
  }

  lemma StartBehind(text: string, p: nat, st: State)
    requires p < |text| && st.start <= p && Step(text, p, st).Go?
    ensures Step(text, p, st).st.start <= p + 1
  {
    hide Act, Decode;
    var st1 := AfterLine(text[p], st);
    BeginsHere(text[p], st1.flags, st1.words == []);
  }
}
