/** What a token of the configuration file is, told by words instead of by characters: where gaps,
    words and quotes end, and what their escapes stand for. */
module ConfWords {
  import opened ConfToken

  // ---------------------------------------------------------------- where things end

  /** The character before is a backslash that is not escaped itself. */
  predicate Escaped(text: string, from: nat, k: nat)
    requires from <= k <= |text|
  {
    k > from && text[k - 1] == '\\' && !Escaped(text, from, k - 1)
  }

  /** Before k stands a dollar sign, with nothing but opening braces in between.  At the first
      character of a word the dollar sign is like any other character. */
  predicate AfterDollar(text: string, from: nat, k: nat)
    requires from <= k <= |text|
  {
    && k > from + 1
    && if text[k - 1] == '{' then AfterDollar(text, from, k - 1) else text[k - 1] == '$' && !Escaped(text, from, k - 1)
  }

  /** A word that began at `from` ends before k. */
  predicate EndsWord(text: string, from: nat, k: nat)
    requires from <= k < |text|
  {
    && (Space(text[k]) || text[k] == ';' || text[k] == '{')
    && !Escaped(text, from, k) && !(text[k] == '{' && AfterDollar(text, from, k))
  }

  /** A word that began behind a quote ends before k. */
  predicate EndsQuote(text: string, from: nat, k: nat, quote: char)
    requires from <= k < |text|
  {
    text[k] == quote && !Escaped(text, from, k)
  }

  function WordEnd(text: string, from: nat, k: nat): (e: nat)
    requires from <= k <= |text|
    ensures k <= e <= |text| && (e < |text| ==> EndsWord(text, from, e))
    ensures forall m :: k <= m < e ==> !EndsWord(text, from, m)
    decreases |text| - k
  {
    if k == |text| || EndsWord(text, from, k) then k else WordEnd(text, from, k + 1)
  }

  function QuoteEnd(text: string, from: nat, k: nat, quote: char): (e: nat)
    requires from <= k <= |text|
    ensures k <= e <= |text| && (e < |text| ==> EndsQuote(text, from, e, quote))
    ensures forall m :: k <= m < e ==> !EndsQuote(text, from, m, quote)
    decreases |text| - k
  {
    if k == |text| || EndsQuote(text, from, k, quote) then k else QuoteEnd(text, from, k + 1, quote)
  }

  function LineEnd(text: string, k: nat): (e: nat)
    requires k <= |text|
    ensures k <= e <= |text| && (e < |text| ==> text[e] == LF) && forall m :: k <= m < e ==> text[m] != LF
    decreases |text| - k
  {
    if k == |text| || text[k] == LF then k else LineEnd(text, k + 1)
  }

  /** The next character that is neither blank nor in a comment. */
  function GapEnd(text: string, p: nat): (q: nat)
    requires p <= |text|
    ensures p <= q <= |text| && (q < |text| ==> !Space(text[q]) && text[q] != '#')
    decreases |text| - p
  {
    if p == |text| then p
    else if Space(text[p]) then GapEnd(text, p + 1)
    else if text[p] == '#' then GapEnd(text, LineEnd(text, p))
    else p
  }

  // ---------------------------------------------------------------- the reading

  datatype Reading = Reading(code: Code, words: seq<string>, pos: nat)

  /** The words from p on, up to the end of the directive, behind those that have been read. */
  function Read(text: string, p: nat, words: seq<string>): Reading
    requires p <= |text|
    decreases |text| - p, 2
  {
    var q := GapEnd(text, p);
    if q == |text| then Reading(if words == [] then FileDone else Error, words, q)
    else if text[q] == ';' then Reading(if words == [] then Error else Ok, words, q + 1)
    else if text[q] == '{' then Reading(if words == [] then Error else BlockStart, words, q + 1)
    else if text[q] == '}' then Reading(if words == [] then BlockDone else Error, words, q + 1)
    else if text[q] == '"' || text[q] == '\'' then AfterQuoted(text, q + 1, QuoteEnd(text, q + 1, q + 1, text[q]), words)
    else AfterPlain(text, q, WordEnd(text, q, q + 1), words)
  }

  /** On behind a word without quotes. */
  function AfterPlain(text: string, q: nat, e: nat, words: seq<string>): Reading
    requires q < e <= |text|
    decreases |text| - e, 0
  {
    if e == |text| then Reading(Error, words, e)
    else
      var words' := words + [Decode(text, q, e)];
      if text[e] == ';' then Reading(Ok, words', e + 1)
      else if text[e] == '{' then Reading(BlockStart, words', e + 1)
      else Read(text, e + 1, words')
  }

  /** On behind a quote that ends a word: a blank, the end of the directive or a parenthesis. */
  function AfterQuoted(text: string, q: nat, e: nat, words: seq<string>): Reading
    requires q <= e <= |text|
    decreases |text| - e, 3
  {
    if e == |text| then Reading(Error, words, e) else OnBehindQuote(text, e + 1, words + [Decode(text, q, e)])
  }

  function OnBehindQuote(text: string, k: nat, words: seq<string>): Reading
    requires k <= |text|
    decreases |text| - k, 3
  {
    if k == |text| then Reading(Error, words, k)
    else if text[k] == ';' then Reading(Ok, words, k + 1)
    else if text[k] == '{' then Reading(BlockStart, words, k + 1)
    else if Space(text[k]) || text[k] == ')' then Read(text, k, words)
    else Reading(Error, words, k + 1)
  }

  // ---------------------------------------------------------------- the tokenizer reads words

  predicate Same(o: Outcome, r: Reading) {
    o.code == r.code && o.st.words == r.words && o.pos == r.pos
  }

  const Fresh := Flags(false, true, false, false, false, false, false)

  /** A character between words. */
  lemma BetweenStep(text: string, p: nat, st: State)
    requires p < |text| && st.flags == Fresh
    ensures var c, m := text[p], Step(text, p, st);
            if c == ';' || c == '{' || c == '}'
            then m.Stop? && m.st.words == st.words
                 && m.code == if c == '}' then (if st.words == [] then BlockDone else Error)
                              else if st.words == [] then Error else if c == '{' then BlockStart else Ok
            else m.Go? && m.st.words == st.words
                 && if Space(c) then m.st.start == st.start && m.st.flags == Fresh
                    else if c == '#' then m.st.start == p && m.st.flags == Fresh.(comment := true)
                    else if c == '"' || c == '\'' then
                      m.st.start == p + 1 && m.st.flags == Flags(false, false, false, false, false, c == '\'', c == '"')
                    else m.st.start == p && m.st.flags == Flags(false, false, false, false, c == '\\', false, false)
  {
  }

  /** The same for the reading. */
  lemma {:induction false} GapReads(text: string, p: nat, words: seq<string>)
    requires p < |text|
    ensures Space(text[p]) ==> Read(text, p, words) == Read(text, p + 1, words)
    ensures text[p] == '#' ==> Read(text, p, words) == Read(text, LineEnd(text, p + 1), words)
    ensures !Space(text[p]) && text[p] != '#' ==> GapEnd(text, p) == p
  {
    hide AfterPlain, AfterQuoted, WordEnd, QuoteEnd;
    assert text[p] == '#' ==> LineEnd(text, p) == LineEnd(text, p + 1);
  }

  lemma {:induction false} RunStep(text: string, p: nat, st: State)
    requires p < |text|
    ensures var m := Step(text, p, st);
            Run(text, p, st) == if m.Go? then Run(text, p + 1, m.st) else Outcome(m.code, m.st, p + 1)
  {
    hide Step;
  }

  lemma {:induction false} BetweenReads(text: string, p: nat, st: State)
    requires p <= |text| && st.flags == Fresh
    ensures Same(Run(text, p, st), Read(text, p, st.words))
    decreases |text| - p, 2
  {
    if p < |text| {
      hide Decode, Step, Run, AfterPlain, AfterQuoted, WordEnd, QuoteEnd, LineEnd, GapEnd;
      var c, m := text[p], Step(text, p, st);
      BetweenStep(text, p, st);
      GapReads(text, p, st.words);
      RunStep(text, p, st);
      if Space(c) {
        BetweenReads(text, p + 1, m.st);
      } else if c == '#' {
        CommentReads(text, p + 1, m.st);
      } else if c == '"' || c == '\'' {
        QuotedReads(text, p + 1, m.st, p + 1, c);
      } else if m.Go? {
        FirstIsPlain(text, p);
        PlainReads(text, p + 1, m.st, p);
      }
    }
  }

  lemma {:induction false} FirstIsPlain(text: string, p: nat)
    requires p < |text|
    ensures (Escaped(text, p, p + 1) <==> text[p] == '\\') && !AfterDollar(text, p, p + 1)
  {
  }

  lemma CommentStep(text: string, p: nat, st: State)
    requires p < |text| && st.flags == Fresh.(comment := true)
    ensures var m := Step(text, p, st);
            m.Go? && m.st.start == st.start && m.st.words == st.words && m.st.flags == if text[p] == LF then Fresh else Fresh.(comment := true)
  {
  }

  lemma {:induction false} CommentReads(text: string, p: nat, st: State)
    requires p <= |text| && st.flags == Fresh.(comment := true)
    ensures Same(Run(text, p, st), Read(text, LineEnd(text, p), st.words))
    decreases |text| - p, 1
  {
    if p < |text| {
      hide Decode, Step, Run, Read;
      var m := Step(text, p, st);
      CommentStep(text, p, st);
      RunStep(text, p, st);
      if text[p] == LF {
        GapReads(text, p, st.words);
        BetweenReads(text, p + 1, m.st);
      } else {
        CommentReads(text, p + 1, m.st);
      }
    }
  }

  /** A character in a word that began at q. */
  lemma {:induction false} PlainStep(text: string, p: nat, st: State, q: nat)
    requires q < p < |text| && st.start == q
    requires st.flags == Flags(false, false, false, AfterDollar(text, q, p), Escaped(text, q, p), false, false)
    ensures var m := Step(text, p, st);
            if !EndsWord(text, q, p) then
              m.Go? && m.st.start == q && m.st.words == st.words
              && m.st.flags == Flags(false, false, false, AfterDollar(text, q, p + 1), Escaped(text, q, p + 1), false, false)
            else
              m.st.words == st.words + [Decode(text, q, p)]
              && if Space(text[p]) then m.Go? && m.st.flags == Fresh
                 else m.Stop? && m.code == if text[p] == '{' then BlockStart else Ok
  {
    hide Decode;
  }

  /** In a word that began at q. */
  lemma {:induction false} PlainReads(text: string, p: nat, st: State, q: nat)
    requires q < p <= |text| && st.start == q
    requires st.flags == Flags(false, false, false, AfterDollar(text, q, p), Escaped(text, q, p), false, false)
    ensures Same(Run(text, p, st), AfterPlain(text, q, WordEnd(text, q, p), st.words))
    decreases |text| - p, 1
  {
    if p < |text| {
      hide Decode, Step, Run, Read, EndsWord, Escaped, AfterDollar;
      var m := Step(text, p, st);
      PlainStep(text, p, st, q);
      RunStep(text, p, st);
      EndsSomehow(text, q, p);
      if !EndsWord(text, q, p) {
        PlainReads(text, p + 1, m.st, q);
      } else if m.Go? {
        BetweenReads(text, p + 1, m.st);
      }
    }
  }

  lemma EndsSomehow(text: string, q: nat, p: nat)
    requires q <= p < |text|
    ensures EndsWord(text, q, p) ==> Space(text[p]) || text[p] == ';' || text[p] == '{'
  {
  }

  /** A character in a word that began behind a quote. */
  lemma {:induction false} QuotedStep(text: string, p: nat, st: State, q: nat, quote: char)
    requires q <= p < |text| && st.start == q && (quote == '"' || quote == '\'')
    requires st.flags == Flags(false, false, false, st.flags.variable, Escaped(text, q, p), quote == '\'', quote == '"')
    ensures var m := Step(text, p, st);
            && m.Go?
            && if EndsQuote(text, q, p, quote) then
                 m.st.words == st.words + [Decode(text, q, p)] && m.st.flags == Flags(true, false, false, false, false, false, false)
               else
                 m.st.start == q && m.st.words == st.words
                 && m.st.flags == Flags(false, false, false, m.st.flags.variable, Escaped(text, q, p + 1), quote == '\'', quote == '"')
  {
    hide Decode;
  }

  /** In a word that began behind a quote, at q. */
  lemma {:induction false} QuotedReads(text: string, p: nat, st: State, q: nat, quote: char)
    requires q <= p <= |text| && st.start == q && (quote == '"' || quote == '\'')
    requires st.flags == Flags(false, false, false, st.flags.variable, Escaped(text, q, p), quote == '\'', quote == '"')
    ensures Same(Run(text, p, st), AfterQuoted(text, q, QuoteEnd(text, q, p, quote), st.words))
    decreases |text| - p, 1
  {
    if p < |text| {
      hide Decode, Step, Run, Read, EndsQuote, Escaped;
      var m := Step(text, p, st);
      QuotedStep(text, p, st, q, quote);
      RunStep(text, p, st);
      if EndsQuote(text, q, p, quote) {
        BehindQuoteReads(text, p + 1, m.st);
      } else {
        QuotedReads(text, p + 1, m.st, q, quote);
      }
    }
  }

  /** A character behind the quote that ends a word. */
  lemma BehindQuoteStep(text: string, p: nat, st: State)
    requires p < |text| && st.words != [] && st.flags == Flags(true, false, false, false, false, false, false)
    ensures var c, m := text[p], Step(text, p, st);
            && m.st.words == st.words
            && if Space(c) then m.Go? && m.st.flags == Fresh
               else if c == ')' then m.Go? && m.st.start == p && m.st.flags == Flags(false, false, false, false, false, false, false)
               else m.Stop? && m.code == if c == ';' then Ok else if c == '{' then BlockStart else Error
  {
  }

  lemma {:induction false} BehindQuoteReads(text: string, p: nat, st: State)
    requires p <= |text| && st.words != [] && st.flags == Flags(true, false, false, false, false, false, false)
    ensures Same(Run(text, p, st), OnBehindQuote(text, p, st.words))
    decreases |text| - p, 3
  {
    if p < |text| {
      hide Decode, Step, Run, AfterPlain, AfterQuoted, WordEnd, QuoteEnd, LineEnd, GapEnd;
      var m := Step(text, p, st);
      BehindQuoteStep(text, p, st);
      RunStep(text, p, st);
      GapReads(text, p, st.words);
      if Space(text[p]) {
        BetweenReads(text, p + 1, m.st);
      } else if text[p] == ')' {
        FirstIsPlain(text, p);
        PlainReads(text, p + 1, m.st, p);
      }
    }
  }

  /** From the start of a token the tokenizer reads what the words say. */
  lemma {:induction false} RunReads(text: string, p: nat, line: nat)
    requires p <= |text|
    ensures Same(Run(text, p, Init(p, line)), Read(text, p, []))
  {
    BetweenReads(text, p, Init(p, line));
  }

  function LineFeeds(s: string): nat {
    if s == "" then 0 else LineFeeds(s[1..]) + if s[0] == LF then 1 else 0
  }

  lemma {:induction false} RunCountsLines(text: string, p: nat, st: State)
    requires p <= |text|
    ensures var o := Run(text, p, st); p <= o.pos <= |text| && o.st.line == st.line + LineFeeds(text[p..o.pos])
    decreases |text| - p
  {
    hide Act, Decode;
    if p < |text| {
      var o := Run(text, p, st);
      assert text[p..p + 1][1..] == "";
      if Step(text, p, st).Go? {
        RunCountsLines(text, p + 1, Step(text, p, st).st);
        assert text[p..o.pos][1..] == text[p + 1..o.pos];
      }
    }
  }

  // ---------------------------------------------------------------- writing and reading

  ghost predicate At(text: string, p: nat, s: string) {
    p + |s| <= |text| && forall k :: 0 <= k < |s| ==> text[p + k] == s[k]
  }

  /** A character of a word as it is written. */
  datatype Part = Char(c: char) | Escape(c: char)

  function Shown(part: Part): string { if part.Char? then [part.c] else ['\\', part.c] }

  function Spelled(parts: seq<Part>): string {
    if parts == [] then "" else Shown(parts[0]) + Spelled(parts[1..])
  }

  /** The first character that is written, and the others behind it. */
  lemma {:induction false} FirstPart(text: string, p: nat, parts: seq<Part>)
    requires parts != [] && At(text, p, Spelled(parts))
    ensures var n := |Shown(parts[0])|;
            p + n <= |text| && |Spelled(parts)| == n + |Spelled(parts[1..])| && At(text, p + n, Spelled(parts[1..]))
    ensures if parts[0].Char? then text[p] == parts[0].c else text[p] == '\\' && text[p + 1] == parts[0].c
  {
    AtParts(text, p, Shown(parts[0]), Spelled(parts[1..]));
    assert text[p] == Shown(parts[0])[0];
    if parts[0].Escape? {
      assert text[p + 1] == Shown(parts[0])[1];
    }
  }

  /** Quotes and backslashes stand for themselves behind a backslash, t, r and n for the tabulator, the
      carriage return and the line feed; any other character keeps the backslash. */
  function StandsFor(part: Part): string {
    match part
    case Char(c) => [c]
    case Escape(c) =>
      if c == '"' || c == '\'' || c == '\\' then [c]
      else if c == 't' then "\t" else if c == 'r' then "\r" else if c == 'n' then "\n"
      else ['\\', c]
  }

  function Meant(parts: seq<Part>): string {
    if parts == [] then "" else StandsFor(parts[0]) + Meant(parts[1..])
  }

  /** Backslashes are only written to escape. */
  predicate Sound(parts: seq<Part>) {
    forall i :: 0 <= i < |parts| ==> parts[i] != Char('\\')
  }

  lemma {:induction false} DecodePart(text: string, p: nat, end: nat, part: Part)
    requires end < |text| && part != Char('\\')
    requires if part.Char? then p < end && text[p] == part.c else p + 1 < end && text[p] == '\\' && text[p + 1] == part.c
    ensures Decode(text, p, end) == StandsFor(part) + Decode(text, if part.Char? then p + 1 else p + 2, end)
  {
    if part.Escape? && |StandsFor(part)| == 2 {
      var rest := Decode(text, p + 2, end);
      assert Decode(text, p + 1, end) == [part.c] + rest;
      assert ['\\'] + ([part.c] + rest) == ['\\', part.c] + rest;
    }
  }

  lemma {:induction false} DecodeSpelled(text: string, p: nat, parts: seq<Part>)
    requires Sound(parts) && At(text, p, Spelled(parts)) && p + |Spelled(parts)| < |text|
    ensures Decode(text, p, p + |Spelled(parts)|) == Meant(parts)
    decreases |parts|
  {
    hide StandsFor, Decode, Spelled, At;
    if parts != [] {
      FirstPart(text, p, parts);
      DecodePart(text, p, p + |Spelled(parts)|, parts[0]);
      DecodeSpelled(text, p + |Shown(parts[0])|, parts[1..]);
    } else {
      assert Spelled([]) == "" by {
        NothingSpelled();
      }
      DecodeEmpty(text, p);
    }
  }

  lemma NothingSpelled()
    ensures Spelled([]) == ""
  {
  }

  lemma {:induction false} DecodeEmpty(text: string, p: nat)
    requires p < |text|
    ensures Decode(text, p, p) == ""
  {
  }

  datatype Item = Blank(c: char) | Comment(note: string) | Plain(parts: seq<Part>) | Quoted(quote: char, parts: seq<Part>)

  function Written(item: Item): string {
    match item
    case Blank(c) => [c]
    case Comment(note) => ['#'] + note + [LF]
    case Plain(parts) => Spelled(parts)
    case Quoted(quote, parts) => [quote] + Spelled(parts) + [quote]
  }

  function WrittenAll(items: seq<Item>): string {
    if items == [] then "" else Written(items[0]) + WrittenAll(items[1..])
  }

  function WordOf(item: Item): seq<string> {
    if item.Plain? || item.Quoted? then [Meant(item.parts)] else []
  }

  function WordsOf(items: seq<Item>): seq<string> {
    if items == [] then [] else WordOf(items[0]) + WordsOf(items[1..])
  }

  /** Behind the first character of a word: `dollar` tells whether a dollar sign stands before. */
  predicate Inside(parts: seq<Part>, dollar: bool) {
    parts == [] ||
    match parts[0]
    case Char(c) =>
      c != '\\' && !Space(c) && c != ';' && (c == '{' ==> dollar) && Inside(parts[1..], c == '$' || (c == '{' && dollar))
    case Escape(_) => Inside(parts[1..], false)
  }

  predicate DollarEnds(parts: seq<Part>, dollar: bool) {
    if parts == [] then dollar
    else
      match parts[0]
      case Char(c) => DollarEnds(parts[1..], c == '$' || (c == '{' && dollar))
      case Escape(_) => DollarEnds(parts[1..], false)
  }

  predicate Begins(part: Part) {
    part.Char? ==>
      var c := part.c;
      !Space(c) && c != ';' && c != '{' && c != '}' && c != '#' && c != '\\' && c != '"' && c != '\''
  }

  predicate Closes(ch: char) { Space(ch) || ch == ';' || ch == '{' }

  /** An item that is written like this can stand before `after`. */
  predicate Stands(item: Item, after: string) {
    match item
    case Blank(c) => Space(c)
    case Comment(note) => forall k :: 0 <= k < |note| ==> note[k] != LF
    case Plain(parts) =>
      && parts != [] && Begins(parts[0]) && Inside(parts[1..], false)
      && after != "" && Closes(after[0]) && (after[0] == '{' ==> !DollarEnds(parts[1..], false))
    case Quoted(quote, parts) =>
      && (quote == '"' || quote == '\'') && Sound(parts) && (forall i :: 0 <= i < |parts| ==> parts[i] != Char(quote))
      && after != "" && (Closes(after[0]) || after[0] == ')')
  }

  predicate StandAll(items: seq<Item>, after: string) {
    items == [] || (Stands(items[0], WrittenAll(items[1..]) + after) && StandAll(items[1..], after))
  }

  lemma {:induction false} InsideIsSound(parts: seq<Part>, dollar: bool)
    requires Inside(parts, dollar)
    ensures Sound(parts)
  {
    if parts != [] {
      InsideIsSound(parts[1..], if parts[0].Char? then parts[0].c == '$' || (parts[0].c == '{' && dollar) else false);
      assert parts == [parts[0]] + parts[1..];
    }
  }

  /** What stands behind a backslash ends nothing. */
  lemma {:induction false} EscapedGoesOn(text: string, q: nat, k: nat, quote: char)
    requires q <= k && k + 1 < |text| && text[k] == '\\' && !Escaped(text, q, k)
    ensures Escaped(text, q, k + 1) && !Escaped(text, q, k + 2) && !AfterDollar(text, q, k + 2)
    ensures WordEnd(text, q, k + 1) == WordEnd(text, q, k + 2)
    ensures quote != '\\' ==> QuoteEnd(text, q, k, quote) == QuoteEnd(text, q, k + 2, quote)
    ensures k > q ==> WordEnd(text, q, k) == WordEnd(text, q, k + 2)
  {
    assert Escaped(text, q, k + 1);
    assert !Escaped(text, q, k + 2);
    assert !EndsWord(text, q, k + 1);
    assert !EndsQuote(text, q, k + 1, quote);
  }

  /** No word ends inside of such characters. */
  lemma {:induction false} PlainGoesOn(text: string, q: nat, x: nat, parts: seq<Part>, dollar: bool)
    requires q < x && At(text, x, Spelled(parts)) && Inside(parts, dollar)
    requires !Escaped(text, q, x) && (AfterDollar(text, q, x) <==> dollar)
    ensures var e := x + |Spelled(parts)|;
            e <= |text| && WordEnd(text, q, x) == WordEnd(text, q, e)
            && !Escaped(text, q, e) && (AfterDollar(text, q, e) <==> DollarEnds(parts, dollar))
    decreases |parts|
  {
    if parts != [] {
      FirstPart(text, x, parts);
      var dollar' := if parts[0].Char? then parts[0].c == '$' || (parts[0].c == '{' && dollar) else false;
      if parts[0].Escape? {
        EscapedGoesOn(text, q, x, '"');
      } else {
        assert !EndsWord(text, q, x);
      }
      PlainGoesOn(text, q, x + |Shown(parts[0])|, parts[1..], dollar');
    }
  }

  /** No quote ends inside of such characters. */
  lemma {:induction false} QuotedGoesOn(text: string, q: nat, x: nat, parts: seq<Part>, quote: char)
    requires q <= x && At(text, x, Spelled(parts)) && !Escaped(text, q, x) && quote != '\\'
    requires Sound(parts) && forall i :: 0 <= i < |parts| ==> parts[i] != Char(quote)
    ensures var e := x + |Spelled(parts)|;
            e <= |text| && QuoteEnd(text, q, x, quote) == QuoteEnd(text, q, e, quote) && !Escaped(text, q, e)
    decreases |parts|
  {
    if parts != [] {
      FirstPart(text, x, parts);
      if parts[0].Escape? {
        EscapedGoesOn(text, q, x, quote);
      } else {
        assert parts[0] != Char(quote) && parts[0] != Char('\\');
        assert !EndsQuote(text, q, x, quote);
      }
      QuotedGoesOn(text, q, x + |Shown(parts[0])|, parts[1..], quote);
    }
  }

  /** Where a word ends that is written like this. */
  lemma {:induction false} PlainEnds(text: string, p: nat, parts: seq<Part>, after: string)
    requires Stands(Plain(parts), after) && At(text, p, Spelled(parts)) && At(text, p + |Spelled(parts)|, after)
    ensures var e := p + |Spelled(parts)|;
            p < e < |text| && Closes(text[e]) && WordEnd(text, p, p + 1) == e && Sound(parts)
    ensures !Space(text[p]) && text[p] != ';' && text[p] != '{' && text[p] != '}' && text[p] != '#'
    ensures text[p] != '"' && text[p] != '\''
  {
    hide Spelled;
    FirstPart(text, p, parts);
    var e, x := p + |Spelled(parts)|, p + |Shown(parts[0])|;
    assert text[e] == after[0];
    if parts[0].Escape? {
      EscapedGoesOn(text, p, p, '"');
    }
    assert WordEnd(text, p, p + 1) == WordEnd(text, p, x);
    PlainGoesOn(text, p, x, parts[1..], false);
    assert EndsWord(text, p, e);
    InsideIsSound(parts[1..], false);
    assert parts == [parts[0]] + parts[1..];
  }

  lemma {:induction false} PlainComesBack(text: string, p: nat, parts: seq<Part>, after: string, words: seq<string>)
    requires Stands(Plain(parts), after) && At(text, p, Spelled(parts) + after)
    ensures var e := p + |Spelled(parts)|; e < |text| && Read(text, p, words) == Read(text, e, words + [Meant(parts)])
  {
    hide *;
    var e := p + |Spelled(parts)|;
    AtParts(text, p, Spelled(parts), after);
    PlainEnds(text, p, parts, after);
    DecodeSpelled(text, p, parts);
    WordReads(text, p, words);
    AfterPlainGoesOn(text, p, e, words);
  }

  lemma {:induction false} WordReads(text: string, p: nat, words: seq<string>)
    requires p < |text| && !Space(text[p]) && text[p] != ';' && text[p] != '{' && text[p] != '}' && text[p] != '#'
    requires text[p] != '"' && text[p] != '\''
    ensures Read(text, p, words) == AfterPlain(text, p, WordEnd(text, p, p + 1), words)
  {
    hide AfterPlain, AfterQuoted, WordEnd, QuoteEnd;
    GapReads(text, p, words);
  }

  lemma {:induction false} AfterPlainGoesOn(text: string, q: nat, e: nat, words: seq<string>)
    requires q < e < |text| && Closes(text[e])
    ensures AfterPlain(text, q, e, words) == Read(text, e, words + [Decode(text, q, e)])
  {
    hide Read, Decode;
    CloserReads(text, e, words + [Decode(text, q, e)]);
  }

  /** What ends a word is read behind it. */
  lemma {:induction false} CloserReads(text: string, e: nat, words: seq<string>)
    requires e < |text| && words != [] && Closes(text[e])
    ensures text[e] == ';' ==> Read(text, e, words) == Reading(Ok, words, e + 1)
    ensures text[e] == '{' ==> Read(text, e, words) == Reading(BlockStart, words, e + 1)
    ensures Space(text[e]) ==> Read(text, e, words) == Read(text, e + 1, words)
  {
    hide AfterPlain, AfterQuoted, WordEnd, QuoteEnd;
    GapReads(text, e, words);
  }

  lemma AtParts(text: string, p: nat, a: string, b: string)
    requires At(text, p, a + b)
    ensures At(text, p, a) && At(text, p + |a|, b) && p + |a| + |b| <= |text|
    ensures b != "" ==> text[p + |a|] == b[0]
  {
    forall k | 0 <= k < |a| ensures text[p + k] == a[k] {
      assert (a + b)[k] == a[k];
    }
    forall k | 0 <= k < |b| ensures text[p + |a| + k] == b[k] {
      assert (a + b)[|a| + k] == b[k];
    }
  }

  lemma {:induction false} QuotedComesBack(text: string, p: nat, quote: char, parts: seq<Part>, after: string, words: seq<string>)
    requires Stands(Quoted(quote, parts), after) && At(text, p, Written(Quoted(quote, parts)) + after)
    ensures var e := p + |Spelled(parts)| + 2; e < |text| && Read(text, p, words) == Read(text, e, words + [Meant(parts)])
  {
    hide *;
    var q, e := p + 1, p + 1 + |Spelled(parts)|;
    QuotedEnds(text, p, quote, parts, after);
    QuotedSays(text, q, quote, parts);
    QuoteReads(text, p, words);
    AfterQuotedGoesOn(text, q, e, words);
    BehindQuoteGoesOn(text, e + 1, words + [Meant(parts)]);
  }

  /** The characters of a quoted word, and the quote that ends it. */
  lemma {:induction false} QuotedSays(text: string, q: nat, quote: char, parts: seq<Part>)
    requires (quote == '"' || quote == '\'') && Sound(parts) && forall i :: 0 <= i < |parts| ==> parts[i] != Char(quote)
    requires At(text, q, Spelled(parts)) && q + |Spelled(parts)| < |text| && text[q + |Spelled(parts)|] == quote
    ensures var e := q + |Spelled(parts)|; QuoteEnd(text, q, q, quote) == e && Decode(text, q, e) == Meant(parts)
  {
    hide Decode, Meant, Spelled, At, QuoteEnd;
    NotEscapedFirst(text, q);
    QuotedGoesOn(text, q, q, parts, quote);
    QuoteEndsHere(text, q, q + |Spelled(parts)|, quote);
    DecodeSpelled(text, q, parts);
  }

  lemma {:induction false} NotEscapedFirst(text: string, q: nat)
    requires q <= |text|
    ensures !Escaped(text, q, q)
  {
  }

  lemma {:induction false} AfterQuotedGoesOn(text: string, q: nat, e: nat, words: seq<string>)
    requires q <= e < |text|
    ensures AfterQuoted(text, q, e, words) == OnBehindQuote(text, e + 1, words + [Decode(text, q, e)])
  {
    hide OnBehindQuote;
  }

  lemma {:induction false} QuoteReads(text: string, p: nat, words: seq<string>)
    requires p < |text| && (text[p] == '"' || text[p] == '\'')
    ensures Read(text, p, words) == AfterQuoted(text, p + 1, QuoteEnd(text, p + 1, p + 1, text[p]), words)
  {
    hide AfterPlain, AfterQuoted, WordEnd, QuoteEnd;
    GapReads(text, p, words);
  }

  lemma {:induction false} BehindQuoteGoesOn(text: string, k: nat, words: seq<string>)
    requires k < |text| && (Closes(text[k]) || text[k] == ')') && words != []
    ensures OnBehindQuote(text, k, words) == Read(text, k, words)
  {
    hide AfterPlain, AfterQuoted, WordEnd, QuoteEnd;
    GapReads(text, k, words);
  }

  lemma {:induction false} QuoteEndsHere(text: string, q: nat, e: nat, quote: char)
    requires q <= e < |text| && text[e] == quote && !Escaped(text, q, e)
    ensures QuoteEnd(text, q, e, quote) == e
  {
    hide Escaped;
    assert EndsQuote(text, q, e, quote);
  }

  lemma {:induction false} QuotedEnds(text: string, p: nat, quote: char, parts: seq<Part>, after: string)
    requires Stands(Quoted(quote, parts), after) && At(text, p, Written(Quoted(quote, parts)) + after)
    ensures (quote == '"' || quote == '\'') && Sound(parts) && forall i :: 0 <= i < |parts| ==> parts[i] != Char(quote)
    ensures var e := p + 1 + |Spelled(parts)|;
            e + 1 < |text| && text[p] == text[e] == quote && (Closes(text[e + 1]) || text[e + 1] == ')')
            && At(text, p + 1, Spelled(parts))
  {
    hide Spelled, Sound;
    var s := Spelled(parts);
    AtParts(text, p, [quote] + s + [quote], after);
    AtParts(text, p, [quote] + s, [quote]);
    AtParts(text, p, [quote], s);
    assert text[p] == [quote][0];
  }

  lemma {:induction false} GapComesBack(text: string, p: nat, item: Item, after: string, words: seq<string>)
    requires (item.Blank? || item.Comment?) && Stands(item, after) && At(text, p, Written(item) + after)
    ensures var e := p + |Written(item)|; e <= |text| && Read(text, p, words) == Read(text, e, words)
  {
    hide Decode;
    AtParts(text, p, Written(item), after);
    assert text[p] == Written(item)[0];
    var e := p + |Written(item)|;
    if item.Comment? {
      var w := Written(item);
      forall k | p < k < e - 1 ensures text[k] != LF {
        assert text[p + (k - p)] == w[k - p] == item.note[k - p - 1];
      }
      assert text[p + (|w| - 1)] == w[|w| - 1] == LF;
      LineEndIs(text, p, e - 1);
      assert GapEnd(text, p) == GapEnd(text, e - 1) == GapEnd(text, e);
    } else {
      assert GapEnd(text, p) == GapEnd(text, e);
    }
  }

  lemma {:induction false} LineEndIs(text: string, p: nat, e: nat)
    requires p <= e < |text| && text[e] == LF && forall k :: p <= k < e ==> text[k] != LF
    ensures LineEnd(text, p) == e
    decreases e - p
  {
    if p < e {
      LineEndIs(text, p + 1, e);
    }
  }

  /** Whatever is written so is read back: the words between blanks and comments, quoted or not, with
      what their escapes stand for. */
  lemma {:induction false} WrittenComesBack(text: string, p: nat, items: seq<Item>, after: string, words: seq<string>)
    requires StandAll(items, after) && At(text, p, WrittenAll(items) + after)
    ensures var e := p + |WrittenAll(items)|; e <= |text| && Read(text, p, words) == Read(text, e, words + WordsOf(items))
    decreases |items|
  {
    hide Read, Meant, Written, Stands, WordOf, WordsOf, StandAll, WrittenAll, At;
    if items == [] {
      NothingWritten(text, p, after);
      assert words + [] == words;
    } else {
      var w, rest := Written(items[0]), WrittenAll(items[1..]);
      Opened(items, after);
      AtParts(text, p, w, rest + after);
      OneComesBack(text, p, items[0], rest + after, words);
      WrittenComesBack(text, p + |w|, items[1..], after, words + WordOf(items[0]));
      Sums(words, WordOf(items[0]), WordsOf(items[1..]));
    }
  }

  lemma NothingWritten(text: string, p: nat, after: string)
    requires At(text, p, WrittenAll([]) + after)
    ensures WrittenAll([]) == "" && WordsOf([]) == [] && p <= |text|
  {
  }

  lemma Sums<T>(a: seq<T>, b: seq<T>, c: seq<T>)
    ensures a + b + c == a + (b + c)
  {
  }

  lemma {:induction false} Opened(items: seq<Item>, after: string)
    requires items != [] && StandAll(items, after)
    ensures WrittenAll(items) + after == Written(items[0]) + (WrittenAll(items[1..]) + after)
    ensures |WrittenAll(items)| == |Written(items[0])| + |WrittenAll(items[1..])|
    ensures WordsOf(items) == WordOf(items[0]) + WordsOf(items[1..])
    ensures Stands(items[0], WrittenAll(items[1..]) + after) && StandAll(items[1..], after)
  {
    hide Written, Stands, WordOf;
    Sums(Written(items[0]), WrittenAll(items[1..]), after);
  }

  lemma OneComesBack(text: string, p: nat, item: Item, after: string, words: seq<string>)
    requires Stands(item, after) && At(text, p, Written(item) + after)
    ensures var e := p + |Written(item)|; e <= |text| && Read(text, p, words) == Read(text, e, words + WordOf(item))
  {
    hide Read, Meant, Stands, At;
    match item
    case Plain(parts) => PlainComesBack(text, p, parts, after, words);
    case Quoted(quote, parts) => QuotedComesBack(text, p, quote, parts, after, words);
    case _ =>
      GapComesBack(text, p, item, after, words);
      assert words + [] == words;
  }

  /** How the character behind the words ends the token. */
  function Verdict(ch: char, words: seq<string>): Code {
    if ch == '}' then if words == [] then BlockDone else Error
    else if words == [] then Error
    else if ch == '{' then BlockStart else Ok
  }

  /** A whole token: words with a semicolon or a brace behind them. */
  lemma {:induction false} TokenComesBack(text: string, p: nat, line: nat, items: seq<Item>, ch: char)
    requires (ch == ';' || ch == '{' || ch == '}') && StandAll(items, [ch]) && At(text, p, WrittenAll(items) + [ch])
    ensures var o, words := Run(text, p, Init(p, line)), WordsOf(items);
            o.code == Verdict(ch, words) && o.st.words == words && o.pos == p + |WrittenAll(items)| + 1
  {
    hide Run, Read, StandAll, At, WrittenAll, WordsOf;
    var words := WordsOf(items);
    AtParts(text, p, WrittenAll(items), [ch]);
    WrittenComesBack(text, p, items, [ch], []);
    RunReads(text, p, line);
    assert [] + words == words;
    VerdictReads(text, p + |WrittenAll(items)|, words);
  }

  lemma {:induction false} VerdictReads(text: string, e: nat, words: seq<string>)
    requires e < |text| && (text[e] == ';' || text[e] == '{' || text[e] == '}')
    ensures Read(text, e, words) == Reading(Verdict(text[e], words), words, e + 1)
  {
    hide AfterPlain, AfterQuoted, WordEnd, QuoteEnd;
    GapReads(text, e, words);
  }

  /** The end of the file: done behind blanks and comments, an error behind a word. */
  lemma {:induction false} EndComesBack(text: string, p: nat, line: nat, items: seq<Item>)
    requires StandAll(items, "") && At(text, p, WrittenAll(items)) && p + |WrittenAll(items)| == |text|
    ensures var o, words := Run(text, p, Init(p, line)), WordsOf(items);
            o.code == (if words == [] then FileDone else Error) && o.st.words == words && o.pos == |text|
  {
    hide Run;
    assert WrittenAll(items) + "" == WrittenAll(items);
    WrittenComesBack(text, p, items, "", []);
    RunReads(text, p, line);
    assert [] + WordsOf(items) == WordsOf(items);
  }

  /** Any word, as it is written between quotes. */
  function Quoting(w: string, quote: char): seq<Part> {
    if w == "" then [] else [if w[0] == quote || w[0] == '\\' then Escape(w[0]) else Char(w[0])] + Quoting(w[1..], quote)
  }

  lemma {:induction false} QuotingMeans(w: string, quote: char)
    requires quote == '"' || quote == '\''
    ensures var parts := Quoting(w, quote);
            Meant(parts) == w && Sound(parts) && forall i :: 0 <= i < |parts| ==> parts[i] != Char(quote)
  {
    if w != "" {
      QuotingMeans(w[1..], quote);
      assert Quoting(w, quote)[1..] == Quoting(w[1..], quote);
      assert w == [w[0]] + w[1..];
    }
  }

  /** Any word whatever, between quotes of either kind with quotes and backslashes escaped, and a
      semicolon: the tokenizer gives back that word. */
  lemma {:induction false} QuotedWordComesBack(text: string, p: nat, line: nat, w: string, quote: char)
    requires (quote == '"' || quote == '\'') && At(text, p, [quote] + Spelled(Quoting(w, quote)) + [quote, ';'])
    ensures var o := Run(text, p, Init(p, line));
            o.code == Ok && o.st.words == [w] && o.pos == p + |Spelled(Quoting(w, quote))| + 3
  {
    hide Run, Meant, Spelled, Sound, Quoting, At;
    var parts := Quoting(w, quote);
    var items := [Quoted(quote, parts)];
    QuotingMeans(w, quote);
    assert items[1..] == [];
    assert WrittenAll(items) == [quote] + Spelled(parts) + [quote] && WordsOf(items) == [w];
    assert WrittenAll(items) + [';'] == [quote] + Spelled(parts) + [quote, ';'];
    assert WrittenAll([]) + [';'] == [';'];
    TokenComesBack(text, p, line, items, ';');
  }

  /** A brace behind a dollar sign belongs to the word exactly if that sign is not its first character. */
  lemma {:induction false} BraceIff(text: string, q: nat, k: nat)
    requires q < k < |text| && text[k] == '{' && text[k - 1] == '$' && !Escaped(text, q, k - 1)
    ensures EndsWord(text, q, k) <==> k - 1 == q
  {
  }

  /** A dollar sign at the start of a word is no variable: the brace behind it begins a block. */
  lemma {:induction false} DollarFirst(text: string, p: nat, line: nat)
    requires At(text, p, "${")
    ensures var o := Run(text, p, Init(p, line)); o.code == BlockStart && o.st.words == ["$"] && o.pos == p + 2
  {
    hide Run, At;
    var items := [Plain([Char('$')])];
    assert items[1..] == [];
    assert Spelled([Char('$')]) == "$" && Meant([Char('$')]) == "$" by {
      assert [Char('$')][1..] == [];
    }
    assert WrittenAll(items) == "$" && WordsOf(items) == ["$"] && WrittenAll([]) + "{" == "{" && "$" + ['{'] == "${";
    assert Stands(items[0], "{");
    TokenComesBack(text, p, line, items, '{');
  }
}
