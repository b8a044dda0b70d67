/** ngx_conf_read_token of ngx_conf_file.c with its buffer: a window that slides over the file. */
module ConfReader {
  import opened ConfToken
  import opened ConfWords

  /** NGX_CONF_BUFFER */
  const CONF_BUFFER := 4096

  class ConfFile {
    const file: string        // the contents on disk
    var offset: nat           // how much of it has been read
    const buffer: array<char> // b->start to b->end
    var pos: nat              // b->pos
    var last: nat             // b->last
    var line: nat
    var args: seq<string>
    var dump: string

    /** The buffer up to `last` holds what was read last; the unread part of it begins at `pos`. */
    ghost predicate Valid()
      reads `pos, `last, `offset, buffer
    {
      && buffer.Length == CONF_BUFFER
      && pos <= last <= CONF_BUFFER
      && last <= offset <= |file|
      && buffer[..last] == file[offset - last..offset]
    }

    /** Where the buffer begins in the file. */
    ghost function Base(): int
      reads `offset, `last
    {
      offset - last
    }

    /** How far the file has been tokenized. */
    ghost function Position(): int
      reads `offset, `last, `pos
    {
      Base() + pos
    }

    constructor (file: string)
      ensures Valid() && this.file == file && Position() == 0 && line == 1 && args == [] && dump == ""
      ensures fresh(buffer)
    {
      this.file := file;
      buffer := new char[CONF_BUFFER];
      offset, pos, last, line, args, dump := 0, 0, 0, 1, [], "";
      new;
    }

    /** ngx_memmove(b->start, start, len) */
    method MoveDown(start: nat, len: nat)
      requires start + len <= buffer.Length
      modifies buffer
      ensures buffer[..len] == old(buffer[start..start + len])
    {
      var i := 0;
      while i < len
        invariant 0 <= i <= len
        invariant forall k :: 0 <= k < i ==> buffer[k] == old(buffer[start + k])
        invariant forall k :: start + i <= k < start + len ==> buffer[k] == old(buffer[k])
      {
        buffer[i] := buffer[start + i];
        i := i + 1;
      }
    }

    /** Moves what is left of the current word to the start of the buffer and fills the rest. */
    method Refill(start: nat)
      requires Valid() && pos == last && start <= pos && pos - start < CONF_BUFFER && offset < |file|
      modifies buffer, `offset, `pos, `last, `dump
      ensures Valid() && pos < last
      ensures Base() == old(Base()) + start && Position() == old(Position())
      ensures dump == old(dump) + file[old(offset)..offset]
    {
      var len := pos - start;
      ghost var base := Base();
      KeepWord(start, len);
      var size := |file| - offset;
      if size > CONF_BUFFER - len {
        size := CONF_BUFFER - len;
      }
      FillUp(len, size, base + start);
      offset := offset + size;
      pos := len;
      last := len + size;
      dump := dump + buffer[len..len + size];
    }

    /** The part of the buffer from `start` on comes to its beginning. */
    method KeepWord(start: nat, len: nat)
      requires Valid() && start + len == last
      modifies buffer
      ensures buffer[..len] == file[offset - len..offset]
    {
      KeptPart(file, Base(), buffer[..last], start);
      assert buffer[..last][start..] == buffer[start..start + len];
      MoveDown(start, len);
    }

    /** Reads on in the file behind the part that was kept. */
    method FillUp(len: nat, size: nat, ghost from: nat)
      requires buffer.Length == CONF_BUFFER && len + size <= CONF_BUFFER
      requires from + len == offset && offset + size <= |file| && buffer[..len] == file[from..offset]
      modifies buffer
      ensures buffer[len..len + size] == file[offset..offset + size]
      ensures buffer[..len + size] == file[from..offset + size]
    {
      ReadFile(len, size);
      ghost var w := buffer[..len + size];
      assert w[..len] == buffer[..len] && w[len..] == buffer[len..len + size];
      Joined(file, from, offset, size, w, len);
    }

    static lemma KeptPart(file: string, base: nat, w: string, start: nat)
      requires Window(file, base, w) && start <= |w|
      ensures w[start..] == file[base + start..base + |w|]
    {
    }

    static lemma Joined(file: string, from: nat, mid: nat, size: nat, w: string, len: nat)
      requires from + len == mid && mid + size <= |file| && |w| == len + size
      requires w[..len] == file[from..mid] && w[len..] == file[mid..mid + size]
      ensures w == file[from..mid + size]
    {
      assert w == w[..len] + w[len..];
    }

    /** ngx_read_file */
    method ReadFile(at: nat, size: nat)
      requires buffer.Length == CONF_BUFFER && at + size <= CONF_BUFFER && offset + size <= |file|
      modifies buffer
      ensures buffer[..at] == old(buffer[..at])
      ensures buffer[at..at + size] == file[offset..offset + size]
    {
      var i := 0;
      while i < size
        invariant 0 <= i <= size
        invariant forall k :: 0 <= k < at ==> buffer[k] == old(buffer[k])
        invariant forall k :: at <= k < at + i ==> buffer[k] == file[offset + (k - at)]
      {
        buffer[at + i] := file[offset + i];
        i := i + 1;
      }
    }

    /** What the character at src is copied as, and how many characters that takes. */
    method DecodeChar(src: nat, ghost end: nat) returns (ch: char, n: nat)
      requires src < end < last <= buffer.Length
      ensures 1 <= n <= 2 && Decode(buffer[..last], src, end) == [ch] + Decode(buffer[..last], src + n, end)
    {
      if buffer[src] == '\\' {
        match buffer[src + 1] {
          case '"' => ch, n := buffer[src + 1], 2;
          case '\'' => ch, n := buffer[src + 1], 2;
          case '\\' => ch, n := buffer[src + 1], 2;
          case 't' => ch, n := TAB, 2;
          case 'r' => ch, n := CR, 2;
          case 'n' => ch, n := LF, 2;
          case _ => ch, n := buffer[src], 1;
        }
      } else {
        ch, n := buffer[src], 1;
      }
    }

    /** The loop that copies a word and resolves its escapes. */
    method DecodeWord(start: nat, end: nat) returns (word: string)
      requires start <= end < last <= buffer.Length
      ensures word == Decode(buffer[..last], start, end)
    {
      hide Decode;
      ghost var w := buffer[..last];
      word := "";
      var src := start;
      assert word + Decode(w, src, end) == Decode(w, start, end);
      while src < end
        invariant start <= src
        invariant word + Decode(w, src, end) == Decode(w, start, end)
        decreases end - src
      {
        var ch, n := DecodeChar(src, end);
        assert word + ([ch] + Decode(w, src + n, end)) == (word + [ch]) + Decode(w, src + n, end);
        word := word + [ch];
        src := src + n;
      }
      DecodeNothing(w, src, end);
    }

    static lemma {:induction false} DecodeNothing(w: string, src: nat, end: nat)
      requires end < |w| && src >= end
      ensures Decode(w, src, end) == ""
    {
    }

    /** One character of the buffer; the result is what a step of the tokenizer makes of it. */
    method NextChar(st0: State) returns (move: Move)
      requires Valid() && pos < last && st0.start <= pos && line == st0.line
      modifies `pos, `line
      ensures pos == old(pos) + 1 && line == move.st.line
      ensures move == Step(buffer[..last], old(pos), st0)
    {
      hide Act, Decode;
      var ch := buffer[pos];
      pos := pos + 1;
      var st := st0;
      if ch == LF {
        line := line + 1;
        st := st.(line := st.line + 1, flags := st.flags.(comment := false));
      }
      match Act(ch, st.flags, st.words == []) {
        case Keep(f) =>
          move := Go(st.(flags := f));
        case Begin(skip, f) =>
          move := Go(st.(start := pos - 1 + skip, startLine := st.line, flags := f));
        case End(f) =>
          var word := DecodeWord(st.start, pos - 1);
          st := st.(words := st.words + [word], flags := f);
          move := if ch == ';' then Stop(Ok, st) else if ch == '{' then Stop(BlockStart, st) else Go(st);
        case Halt(code) =>
          move := Stop(code, st);
      }
    }

    // -------------------------------------------------------------- places that are too long

    /** The tokenizer comes to a place before the end where one word, comment or gap is as long as
        the buffer. */
    static ghost predicate Stuck(file: string, p0: nat, st0: State) {
      exists p: nat, st :: Fills(file, p0, st0, p, st)
    }

    static ghost predicate Fills(file: string, p0: nat, st0: State, p: nat, st: State) {
      Comes(file, p0, st0, p, st) && p < |file| && p - st.start == CONF_BUFFER
    }

    /** The tokenizer over the whole file ends with this code, these words, there, in this line. */
    static ghost predicate SaysAll(file: string, p0: nat, st0: State, code: Code, words: seq<string>, p: int, line: nat) {
      var o := Run(file, p0, st0);
      code == o.code && words == o.st.words && p == o.pos && line == o.st.line
    }

    /** There is no such place before p. */
    static ghost predicate NotStuck(file: string, p0: nat, st0: State, p: nat) {
      forall p': nat, st' :: Comes(file, p0, st0, p', st') && p' < p ==> p' - st'.start != CONF_BUFFER
    }

    static lemma {:induction false} ComesOnce(file: string, p0: nat, st0: State, p: nat, a: State, b: State)
      requires Comes(file, p0, st0, p, a) && Comes(file, p0, st0, p, b)
      ensures a == b
      decreases |file| - p0
    {
      hide Step;
      if p0 < p {
        ComesOnce(file, p0 + 1, Step(file, p0, st0).st, p, a, b);
      }
    }

    /** To come to a place is to come to every place before it. */
    static lemma {:induction false} ComesPast(file: string, p0: nat, st0: State, p: nat, st: State, p': nat, st': State)
      requires Comes(file, p0, st0, p, st) && Comes(file, p0, st0, p', st') && p < p'
      ensures p < |file| && Step(file, p, st).Go?
      decreases |file| - p0
    {
      hide Step;
      if p0 < p {
        ComesPast(file, p0 + 1, Step(file, p0, st0).st, p, st, p', st');
      }
    }

    static lemma {:induction false} NothingBefore(file: string, p0: nat, st0: State)
      ensures NotStuck(file, p0, st0, p0)
    {
      forall p': nat, st' | Comes(file, p0, st0, p', st') ensures p0 <= p' {
        ComesForward(file, p0, st0, p', st');
      }
    }

    static lemma {:induction false} ComesForward(file: string, p0: nat, st0: State, p: nat, st: State)
      requires Comes(file, p0, st0, p, st)
      ensures p0 <= p
    {
    }

    static lemma {:induction false} NotStuckHere(file: string, p0: nat, st0: State, p: nat, st: State)
      requires Comes(file, p0, st0, p, st) && NotStuck(file, p0, st0, p) && p - st.start != CONF_BUFFER
      ensures NotStuck(file, p0, st0, p + 1)
    {
      hide Comes;
      forall p': nat, st' | Comes(file, p0, st0, p', st') && p' < p + 1 ensures p' - st'.start != CONF_BUFFER {
        if p' == p {
          ComesOnce(file, p0, st0, p, st, st');
        }
      }
    }

    static lemma {:induction false} IsStuck(file: string, p0: nat, st0: State, p: nat, st: State)
      requires Comes(file, p0, st0, p, st) && p < |file| && p - st.start == CONF_BUFFER
      ensures Stuck(file, p0, st0) && Fills(file, p0, st0, p, st)
    {
      assert Fills(file, p0, st0, p, st);
    }

    /** Nothing comes after the last step. */
    static lemma {:induction false} StoppedHere(file: string, p0: nat, st0: State, p: nat, st: State)
      requires Comes(file, p0, st0, p, st) && p < |file| && Step(file, p, st).Stop?
      ensures forall p': nat, st' :: Comes(file, p0, st0, p', st') ==> p' < p + 1
    {
      hide Comes, Step;
      forall p': nat, st' | Comes(file, p0, st0, p', st') ensures p' < p + 1 {
        if p < p' {
          ComesPast(file, p0, st0, p, st, p', st');
        }
      }
    }

    static lemma {:induction false} NeverStuck(file: string, p0: nat, st0: State, p: nat)
      requires NotStuck(file, p0, st0, p)
      requires forall p': nat, st' :: Comes(file, p0, st0, p', st') && p' < |file| ==> p' < p
      ensures !Stuck(file, p0, st0)
    {
      hide Comes;
      forall p': nat, st' ensures !Fills(file, p0, st0, p', st') {
        assert Comes(file, p0, st0, p', st') && p' < |file| ==> p' - st'.start != CONF_BUFFER;
      }
    }

    /** One character of the file. */
    method ReadChar(st: State, ghost p0: nat, ghost st0: State) returns (move: Move)
      requires Valid() && pos < last && st.start <= pos && line == st.line
      requires Comes(file, p0, st0, Position(), Shift(st, Base()))
      modifies `pos, `line
      ensures Valid() && Position() == old(Position()) + 1 && line == move.st.line
      ensures move.Go? ==> Comes(file, p0, st0, Position(), Shift(move.st, Base())) && move.st.start <= pos
      ensures move.Stop? ==> Run(file, p0, st0) == Outcome(move.code, Shift(move.st, Base()), Position())
      ensures move.Stop? ==> Step(file, old(Position()), Shift(st, Base())).Stop?
    {
      hide Act, Decode, Step, Run, Comes;
      ghost var p := pos;
      move := NextChar(st);
      OneStep(file, p0, st0, Base(), buffer[..last], p, st, move);
    }

    /** At the end of the buffer more of the file is read, if there is more and there is room. */
    method MakeReady(st0: State) returns (st: State)
      requires Valid() && st0.start <= pos
      modifies buffer, `offset, `pos, `last, `dump
      ensures Valid() && st.start <= pos && Position() == old(Position())
      ensures Shift(st, Base()) == Shift(st0, old(Base()))
      ensures old(offset) <= offset && dump == old(dump) + file[old(offset)..offset]
      ensures pos < last || offset >= |file| || pos - st.start == CONF_BUFFER
    {
      st := st0;
      if pos >= last && offset < |file| && pos - st.start < CONF_BUFFER {
        Refill(st.start);
        st := st.(start := 0);
      }
    }

    /** The file has ended, or the buffer is full. */
    method NothingToRead(st: State, ghost p0: nat, ghost st0: State) returns (code: Code, ghost at: nat, ghost stuck: State)
      requires Valid() && st.start <= pos && line == st.line && pos >= last
      requires offset >= |file| || pos - st.start == CONF_BUFFER
      requires Comes(file, p0, st0, Position(), Shift(st, Base())) && NotStuck(file, p0, st0, Position())
      modifies `line
      ensures code == TooLong ==> Stuck(file, p0, st0) && Fills(file, p0, st0, at, stuck) && line == stuck.startLine
      ensures code != TooLong ==> !Stuck(file, p0, st0) && SaysAll(file, p0, st0, code, st.words, Position(), line)
    {
      hide Comes, Run, NotStuck, SaysAll, Stuck;
      at, stuck := Position(), Shift(st, Base());
      if offset >= |file| {
        code := if st.words != [] || !st.flags.lastSpace then Error else FileDone;
        Ended(file, p0, st0, code, Shift(st, Base()));
      } else {
        line := st.startLine;
        code := TooLong;
        IsStuck(file, p0, st0, at, stuck);
      }
    }

    /** One more character, in a buffer that it does not fill. */
    method ReadOne(st: State, ghost p0: nat, ghost st0: State) returns (move: Move)
      requires Valid() && pos < last && st.start <= pos && line == st.line
      requires Comes(file, p0, st0, Position(), Shift(st, Base())) && NotStuck(file, p0, st0, Position())
      modifies `pos, `line
      ensures Valid() && Position() == old(Position()) + 1 && line == move.st.line
      ensures move.Go? ==> Comes(file, p0, st0, Position(), Shift(move.st, Base())) && move.st.start <= pos
      ensures move.Go? ==> NotStuck(file, p0, st0, Position())
      ensures move.Stop? ==> !Stuck(file, p0, st0) && SaysAll(file, p0, st0, move.code, move.st.words, Position(), line)
      ensures move.Stop? ==> move.code == Run(file, p0, st0).code
    {
      hide Comes, Run, NotStuck, SaysAll, Stuck, Step;
      ghost var p, st1 := Position(), Shift(st, Base());
      NotStuckHere(file, p0, st0, p, st1);
      move := ReadChar(st, p0, st0);
      if move.Stop? {
        Stopped(file, p0, st0, p, st1, move.code, Shift(move.st, Base()));
      }
    }

    /** ngx_conf_read_token: the code, the words and the position are those of reading the whole file
        word by word, and the line counts its line feeds, unless the tokenizer comes to a place, before
        the end, where one word, comment or gap fills the buffer.  Exactly then "too long" is reported. */
    method ReadToken() returns (code: Code, ghost at: nat, ghost stuck: State)
      requires Valid()
      modifies this, buffer
      ensures Valid()
      ensures old(offset) <= offset && dump == old(dump) + file[old(offset)..offset]
      ensures code == TooLong <==> Stuck(file, old(Position()), Init(old(Position()), old(line)))
      ensures if code == TooLong
              then Fills(file, old(Position()), Init(old(Position()), old(line)), at, stuck) && line == stuck.startLine
              else Reads(file, old(Position()), old(line), code, args, Position(), line)
    {
      hide Act, Decode, Step, Run, Comes, NotStuck, Stuck, Fills, SaysAll, Reads;
      ghost var p0, st0 := Position(), Init(Position(), line);
      ghost var dump0, offset0, line0 := dump, offset, line;
      RunIsNotTooLong(file, p0, st0);
      var st := Init(pos, line);
      code, at, stuck := FileDone, 0, st0;
      assert Shift(st, Base()) == st0;
      ComesHere(file, p0, st0);
      NothingBefore(file, p0, st0);
      while true
        invariant Valid() && st.start <= pos && line == st.line
        invariant p0 <= Position() && Comes(file, p0, st0, Position(), Shift(st, Base()))
        invariant offset0 <= offset && dump == dump0 + file[offset0..offset]
        invariant NotStuck(file, p0, st0, Position())
        decreases |file| - Position()
      {
        ghost var d1, o1 := dump, offset;
        st := MakeReady(st);
        DumpOn(file, dump0, offset0, o1, offset);
        if pos >= last {
          code, at, stuck := NothingToRead(st, p0, st0);
          if code == TooLong {
            return;
          }
          break;
        }
        var move := ReadOne(st, p0, st0);
        st := move.st;
        if move.Stop? {
          code := move.code;
          break;
        }
      }
      args := st.words;
      WordsRead(file, p0, line0, code, args, Position(), line);
    }

    /** What is read at p0, in this line: the words behind p0, up to there. */
    static ghost predicate Reads(file: string, p0: nat, line0: nat, code: Code, words: seq<string>, p: int, line: nat)
      requires p0 <= |file|
    {
      var r := Read(file, p0, []);
      code == r.code && words == r.words && p == r.pos && p0 <= p <= |file| && line == line0 + LineFeeds(file[p0..p])
    }

    static lemma WordsRead(file: string, p0: nat, line0: nat, code: Code, words: seq<string>, p: int, line: nat)
      requires p0 <= |file| && SaysAll(file, p0, Init(p0, line0), code, words, p, line)
      ensures Reads(file, p0, line0, code, words, p, line)
    {
      hide Run, Read;
      RunReads(file, p0, line0);
      RunCountsLines(file, p0, Init(p0, line0));
    }

    static lemma {:induction false} ComesHere(file: string, p: nat, st: State)
      ensures Comes(file, p, st, p, st)
    {
    }

    static lemma {:induction false} Ended(file: string, p0: nat, st0: State, code: Code, st: State)
      requires Comes(file, p0, st0, |file|, st) && NotStuck(file, p0, st0, |file|)
      requires code == if st.words != [] || !st.flags.lastSpace then Error else FileDone
      ensures SaysAll(file, p0, st0, code, st.words, |file|, st.line) && !Stuck(file, p0, st0)
    {
      hide Comes, Run;
      AtEnd(file, p0, st0, st);
      NeverStuck(file, p0, st0, |file|);
    }

    static lemma {:induction false} Stopped(file: string, p0: nat, st0: State, p: nat, st1: State, code: Code, st: State)
      requires Comes(file, p0, st0, p, st1) && p < |file| && Step(file, p, st1).Stop? && NotStuck(file, p0, st0, p + 1)
      requires Run(file, p0, st0) == Outcome(code, st, p + 1)
      ensures SaysAll(file, p0, st0, code, st.words, p + 1, st.line) && !Stuck(file, p0, st0)
    {
      hide Comes, Run, Step;
      StoppedHere(file, p0, st0, p, st1);
      NeverStuck(file, p0, st0, p + 1);
    }

    static lemma {:induction false} AtEnd(file: string, p0: nat, st0: State, st: State)
      requires Comes(file, p0, st0, |file|, st)
      ensures Run(file, p0, st0) == Outcome(if st.words != [] || !st.flags.lastSpace then Error else FileDone, st, |file|)
    {
      RunFrom(file, p0, st0, |file|, st);
    }

    static lemma DumpOn(file: string, dump0: string, a: nat, b: nat, c: nat)
      requires a <= b <= c <= |file|
      ensures dump0 + file[a..b] + file[b..c] == dump0 + file[a..c]
    {
      assert file[a..b] + file[b..c] == file[a..c];
      assert dump0 + file[a..b] + file[b..c] == dump0 + (file[a..b] + file[b..c]);
    }

    static lemma {:induction false} OneStep(file: string, p0: nat, st0: State, d: nat, w: string, p: nat, st: State, move: Move)
      requires Window(file, d, w) && p < |w| && st.start <= p && move == Step(w, p, st)
      requires Comes(file, p0, st0, d + p, Shift(st, d))
      ensures move.Go? ==> Comes(file, p0, st0, d + p + 1, Shift(move.st, d)) && move.st.start <= p + 1
      ensures move.Stop? ==> Run(file, p0, st0) == Outcome(move.code, Shift(move.st, d), d + p + 1)
      ensures move.Stop? ==> Step(file, d + p, Shift(st, d)).Stop?
    {
      hide Step, Comes;
      StepInWindow(file, d, w, p, st);
      RunFrom(file, p0, st0, d + p, Shift(st, d));
      if move.Go? {
        ComesOn(file, p0, st0, d + p, Shift(st, d));
        StartBehind(w, p, st);
      }
    }
  }
}
