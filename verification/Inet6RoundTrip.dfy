/** What ngx_inet6_addr makes of the text that ngx_inet6_ntop prints. */
module Inet6RoundTrip {
  import opened Inet6Text

  /** At i the text goes on with s. */
  predicate At(text: string, i: nat, s: string) {
    i + |s| <= |text| && text[i..i + |s|] == s
  }

  lemma AtChar(text: string, i: nat, s: string, k: nat)
    requires At(text, i, s) && k < |s|
    ensures text[i + k] == s[k]
  {
    assert text[i..i + |s|][k] == s[k];
  }

  lemma AtParts(text: string, i: nat, a: string, b: string)
    requires At(text, i, a + b)
    ensures At(text, i, a) && At(text, i + |a|, b)
  {
    var s := a + b;
    assert text[i..i + |a|] == text[i..i + |s|][..|a|] == a;
    assert text[i + |a|..i + |s|] == text[i..i + |s|][|a|..] == b;
  }

  // ---------------------------------------------------------------- groups of hexadecimal digits

  lemma HexDigitValue(n: nat)
    requires n < 16
    ensures HexValue(HexDigit(n)) == Some(n) && HexDigit(n) != ':' && HexDigit(n) != '.'
  {
  }

  /** A digit. */
  lemma DigitStep(text: string, i: nat, st: State, n: nat)
    requires i < |text| && n < 16 && text[i] == HexDigit(n) && st.nibbles < 4
    ensures Run(text, i, st) == Run(text, i + 1, st.(nibbles := st.nibbles + 1, word := st.word * 16 + n))
  {
    HexDigitValue(n);
  }

  /** The digits of a group. */
  lemma {:induction false} HexRun(text: string, i: nat, st: State, w: nat)
    requires w < 0x1_0000 && At(text, i, Hex(w)) && st.nibbles == 0 && st.word == 0
    ensures Run(text, i, st) == Run(text, i + |Hex(w)|, st.(nibbles := |Hex(w)|, word := w))
  {
    hide Run, HexDigit;
    var s := Hex(w);
    AtChar(text, i, s, 0);
    if |s| == 1 {
      DigitStep(text, i, st, w);
    } else {
      AtChar(text, i, s, 1);
      if |s| == 2 {
        DigitStep(text, i, st, w / 16);
        DigitStep(text, i + 1, st.(nibbles := 1, word := w / 16), w % 16);
      } else {
        AtChar(text, i, s, 2);
        if |s| == 3 {
          ThreeDigits(text, i, st, w);
        } else {
          AtChar(text, i, s, 3);
          FourDigits(text, i, st, w);
        }
      }
    }
  }

  lemma ThreeDigits(text: string, i: nat, st: State, w: nat)
    requires 256 <= w < 4096 && i + 3 <= |text| && st.nibbles == 0 && st.word == 0
    requires text[i] == HexDigit(w / 256) && text[i + 1] == HexDigit(w / 16 % 16) && text[i + 2] == HexDigit(w % 16)
    ensures Run(text, i, st) == Run(text, i + 3, st.(nibbles := 3, word := w))
  {
    hide Run, HexDigit;
    DigitStep(text, i, st, w / 256);
    DigitStep(text, i + 1, st.(nibbles := 1, word := w / 256), w / 16 % 16);
    DigitStep(text, i + 2, st.(nibbles := 2, word := w / 16), w % 16);
  }

  lemma FourDigits(text: string, i: nat, st: State, w: nat)
    requires 4096 <= w < 0x1_0000 && i + 4 <= |text| && st.nibbles == 0 && st.word == 0
    requires text[i] == HexDigit(w / 4096) && text[i + 1] == HexDigit(w / 256 % 16)
    requires text[i + 2] == HexDigit(w / 16 % 16) && text[i + 3] == HexDigit(w % 16)
    ensures Run(text, i, st) == Run(text, i + 4, st.(nibbles := 4, word := w))
  {
    hide Run, HexDigit;
    DigitStep(text, i, st, w / 4096);
    DigitStep(text, i + 1, st.(nibbles := 1, word := w / 4096), w / 256 % 16);
    DigitStep(text, i + 2, st.(nibbles := 2, word := w / 256), w / 16 % 16);
    DigitStep(text, i + 3, st.(nibbles := 3, word := w / 16), w % 16);
  }

  /** Between two groups. */
  predicate Fresh(st: State) { st.nibbles == 0 && st.word == 0 }

  /** A group and the colon behind it. */
  lemma GroupRun(text: string, i: nat, st: State, w: nat)
    requires w < 0x1_0000 && At(text, i, Hex(w) + ":") && Fresh(st) && st.n >= 2
    ensures Run(text, i, st)
            == Run(text, i + |Hex(w)| + 1,
                   State(st.out + [High(w), Low(w)], st.zero, Some(i + |Hex(w)| + 1), 0, 0, st.n - 1))
  {
    AtParts(text, i, Hex(w), ":");
    HexRun(text, i, st, w);
    AtChar(text, i + |Hex(w)|, ":", 0);
  }

  lemma WordBytes(a: Addr, g: nat)
    requires g < 8
    ensures Word(a, g) < 0x1_0000 && High(Word(a, g)) == a[2 * g] && Low(Word(a, g)) == a[2 * g + 1]
  {
  }

  lemma TwoMore(out: seq<Byte>, a: Addr, g: nat, k: nat)
    requires g < k <= 8
    ensures out + [a[2 * g], a[2 * g + 1]] + a[2 * (g + 1)..2 * k] == out + a[2 * g..2 * k]
  {
    assert a[2 * g..2 * k] == [a[2 * g], a[2 * g + 1]] + a[2 * (g + 1)..2 * k];
  }

  /** Groups with a colon behind each. */
  lemma {:induction false} GroupsRun(text: string, i: nat, st: State, a: Addr, g: nat, k: nat)
    requires g <= k <= 7 && At(text, i, GroupsText(a, g, k)) && Fresh(st) && st.n > k - g
    ensures var j := i + |GroupsText(a, g, k)|;
            Run(text, i, st)
            == Run(text, j, st.(out := st.out + a[2 * g..2 * k], digit := if g < k then Some(j) else st.digit, n := st.n - (k - g)))
    decreases k - g
  {
    hide Hex, Word;
    hide At;
    hide Run;
    if g < k {
      var w := Word(a, g);
      WordBytes(a, g);
      AtParts(text, i, Hex(w) + ":", GroupsText(a, g + 1, k));
      GroupRun(text, i, st, w);
      var i1 := i + |Hex(w)| + 1;
      var st1 := State(st.out + [High(w), Low(w)], st.zero, Some(i1), 0, 0, st.n - 1);
      GroupsRun(text, i1, st1, a, g + 1, k);
      TwoMore(st.out, a, g, k);
    } else {
      assert st.out + a[2 * g..2 * k] == st.out;
    }
  }

  /** The eighth group ends the text. */
  lemma {:induction false} LastGroup(text: string, i: nat, st: State, a: Addr)
    requires At(text, i, Hex(Word(a, 7))) && i + |Hex(Word(a, 7))| == |text| && Fresh(st)
    ensures Run(text, i, st) == Finish(st.(nibbles := |Hex(Word(a, 7))|, word := Word(a, 7)))
  {
    HexRun(text, i, st, Word(a, 7));
  }

  // ---------------------------------------------------------------- the IPv4 tail

  /** A decimal number of a byte: its digits pass as hexadecimal ones until a dot comes. */
  lemma DecStep(text: string, i: nat, st: State, n: nat)
    requires i < |text| && n < 10 && text[i] == '0' + n as char && st.nibbles < 4
    ensures Run(text, i, st) == Run(text, i + 1, st.(nibbles := st.nibbles + 1, word := st.word * 16 + n))
  {
    DigitStep(text, i, st, n);
  }

  lemma DecRun(text: string, i: nat, st: State, b: Byte) returns (word: nat)
    requires At(text, i, Dec(b)) && Fresh(st)
    ensures Run(text, i, st) == Run(text, i + |Dec(b)|, st.(nibbles := |Dec(b)|, word := word))
  {
    hide Run;
    var s := Dec(b);
    AtChar(text, i, s, 0);
    if b < 10 {
      DecStep(text, i, st, b);
      word := b;
    } else if b < 100 {
      AtChar(text, i, s, 1);
      DecStep(text, i, st, b / 10);
      DecStep(text, i + 1, st.(nibbles := 1, word := b / 10), b % 10);
      word := b / 10 * 16 + b % 10;
    } else {
      AtChar(text, i, s, 1);
      AtChar(text, i, s, 2);
      DecStep(text, i, st, b / 100);
      DecStep(text, i + 1, st.(nibbles := 1, word := b / 100), b / 10 % 10);
      DecStep(text, i + 2, st.(nibbles := 2, word := b / 100 * 16 + b / 10 % 10), b % 10);
      word := (b / 100 * 16 + b / 10 % 10) * 16 + b % 10;
    }
  }

  /** One decimal digit of ngx_inet_addr. */
  lemma OctetStep(text: string, i: nat, addr: nat, octet: nat, n: nat, d: nat)
    requires i < |text| && d < 10 && text[i] == '0' + d as char && octet * 10 + d <= 255
    ensures InetFrom(text, i, addr, octet, n) == InetFrom(text, i + 1, addr, octet * 10 + d, n)
  {
  }

  lemma {:induction false} OctetRun(text: string, i: nat, addr: nat, n: nat, b: Byte)
    requires At(text, i, Dec(b))
    ensures InetFrom(text, i, addr, 0, n) == InetFrom(text, i + |Dec(b)|, addr, b, n)
  {
    hide InetFrom;
    var s := Dec(b);
    AtChar(text, i, s, 0);
    if b < 10 {
      OctetStep(text, i, addr, 0, n, b);
    } else if b < 100 {
      AtChar(text, i, s, 1);
      OctetStep(text, i, addr, 0, n, b / 10);
      OctetStep(text, i + 1, addr, b / 10, n, b % 10);
    } else {
      AtChar(text, i, s, 1);
      AtChar(text, i, s, 2);
      OctetStep(text, i, addr, 0, n, b / 100);
      OctetStep(text, i + 1, addr, b / 100, n, b / 10 % 10);
      OctetStep(text, i + 2, addr, b / 10, n, b % 10);
    }
  }

  lemma OctetDot(text: string, i: nat, addr: nat, n: nat, b: Byte)
    requires At(text, i, Dec(b) + ".")
    ensures InetFrom(text, i, addr, 0, n) == InetFrom(text, i + |Dec(b)| + 1, (addr * 256 + b) % 0x1_0000_0000, 0, n + 1)
  {
    AtParts(text, i, Dec(b), ".");
    OctetRun(text, i, addr, n, b);
    AtChar(text, i + |Dec(b)|, ".", 0);
  }

  lemma OctetThenRest(text: string, i: nat, addr: nat, n: nat, b: Byte, rest: string)
    requires At(text, i, Dec(b) + "." + rest)
    ensures At(text, i + |Dec(b)| + 1, rest)
    ensures InetFrom(text, i, addr, 0, n) == InetFrom(text, i + |Dec(b)| + 1, (addr * 256 + b) % 0x1_0000_0000, 0, n + 1)
  {
    hide InetFrom, Dec;
    AtParts(text, i, Dec(b) + ".", rest);
    OctetDot(text, i, addr, n, b);
  }

  /** The number that the last four bytes are. */
  function Tail(a: Addr): nat { ((a[12] as int * 256 + a[13] as int) * 256 + a[14] as int) * 256 + a[15] as int }

  function Rest3(a: Addr): string { Dec(a[13]) + "." + Rest2(a) }

  function Rest2(a: Addr): string { Dec(a[14]) + "." + Dec(a[15]) }

  lemma DottedTextParts(a: Addr)
    ensures DottedText(a) == Dec(a[12]) + "." + Rest3(a)
  {
    hide Dec;
    Join4(Dec(a[12]), Dec(a[13]), Dec(a[14]), Dec(a[15]));
  }

  lemma Join4(a: string, b: string, c: string, d: string)
    ensures a + "." + b + "." + c + "." + d == a + "." + (b + "." + (c + "." + d))
  {
  }

  lemma DottedValue(a: Addr)
    ensures InetAddr(DottedText(a)) == Tail(a)
  {
    hide InetFrom, Dec, DottedText, Rest3, Rest2, At;
    var t := DottedText(a);
    DottedTextParts(a);
    AtStart(t);
    var h: nat := a[12] as int * 256 + a[13] as int;
    var k: nat := h * 256 + a[14] as int;
    var i1 := |Dec(a[12])| + 1;
    var i2 := i1 + |Dec(a[13])| + 1;
    OctetThenRest(t, 0, 0, 0, a[12], Rest3(a));
    RestParts(a);
    OctetThenRest(t, i1, a[12], 1, a[13], Rest2(a));
    OctetThenRest(t, i2, h, 2, a[14], Dec(a[15]));
    LastOctet(t, i2 + |Dec(a[14])| + 1, k, a[15], a);
  }

  lemma AtStart(t: string)
    ensures At(t, 0, t)
  {
  }

  lemma RestParts(a: Addr)
    ensures Rest3(a) == Dec(a[13]) + "." + Rest2(a) && Rest2(a) == Dec(a[14]) + "." + Dec(a[15])
  {
  }

  lemma {:induction false} LastOctet(text: string, i: nat, addr: nat, b: Byte, a: Addr)
    requires At(text, i, Dec(b)) && text == DottedText(a) && b == a[15]
    requires i == |Dec(a[12])| + |Dec(a[13])| + |Dec(a[14])| + 3
    ensures InetFrom(text, i, addr, 0, 3) == (addr * 256 + b) % 0x1_0000_0000
  {
    hide Dec;
    OctetRun(text, i, addr, 3, b);
    assert i + |Dec(b)| == |text|;
  }

  /** The first dot of an IPv4 part: all of the part is read again. */
  lemma {:induction false} DotStep(text: string, i: nat, st: State, d: nat)
    requires i < |text| && text[i] == '.' && st.nibbles > 0 && st.n >= 2 && st.digit == Some(d) && d <= |text|
    ensures var w := InetAddr(text[d..]);
            Run(text, i, st)
            == if w == INADDR_NONE then None
               else Finish(st.(out := st.out + [High(w / 0x1_0000), Low(w / 0x1_0000)], word := w, n := st.n - 1))
  {
  }

  /** The IPv4 part at the end of a text. */
  lemma {:induction false} DottedRun(text: string, i: nat, st: State, a: Addr)
    requires At(text, i, DottedText(a)) && i + |DottedText(a)| == |text|
    requires Fresh(st) && st.n >= 2 && st.digit == Some(i)
    ensures Run(text, i, st)
            == if Tail(a) == INADDR_NONE then None
               else Finish(State(st.out + [a[12], a[13]], st.zero, st.digit, |Dec(a[12])|, Tail(a), st.n - 1))
  {
    hide Dec, InetAddr, Finish, Run, DottedText, Rest3;
    DottedTextParts(a);
    AtParts(text, i, Dec(a[12]) + ".", Rest3(a));
    AtParts(text, i, Dec(a[12]), ".");
    var word := DecRun(text, i, st, a[12]);
    AtChar(text, i + |Dec(a[12])|, ".", 0);
    assert text[i..] == DottedText(a);
    DotStep(text, i + |Dec(a[12])|, st.(nibbles := |Dec(a[12])|, word := word), i);
    DottedValue(a);
    TailBytes(a);
  }

  lemma TailBytes(a: Addr)
    ensures High(Tail(a) / 0x1_0000) == a[12] && Low(Tail(a) / 0x1_0000) == a[13]
    ensures High(Tail(a)) == a[14] && Low(Tail(a)) == a[15]
    ensures Tail(a) == INADDR_NONE <==> a[12] == a[13] == a[14] == a[15] == 255
  {
    var h: nat := a[12] as int * 256 + a[13] as int;
    var l: nat := a[14] as int * 256 + a[15] as int;
    assert Tail(a) == h * 0x1_0000 + l;
    assert Tail(a) / 0x1_0000 == h;
    assert Tail(a) / 256 == h * 256 + a[14] as int;
  }

  // ---------------------------------------------------------------- the round trip

  /** A group, with the colon behind it. */
  function GroupText(a: Addr, g: nat): string
    requires g < 8
  {
    Hex(Word(a, g)) + if g < 7 then ":" else ""
  }

  lemma FirstGroup(a: Addr, g: nat, k: nat)
    requires g < k <= 8
    ensures GroupsText(a, g, k) == GroupText(a, g) + GroupsText(a, g + 1, k)
  {
    hide Hex, Word;
  }

  lemma {:induction false} NoGroupsText(a: Addr, g: nat, k: nat)
    requires k <= 8 && g >= k
    ensures GroupsText(a, g, k) == ""
  {
  }

  lemma Associates(x: string, y: string, z: string)
    ensures x + (y + z) == x + y + z && "" + x == x
  {
  }

  lemma {:induction false} GroupsSplit(a: Addr, g: nat, m: nat, k: nat)
    requires g <= m <= k <= 8
    ensures GroupsText(a, g, k) == GroupsText(a, g, m) + GroupsText(a, m, k)
    decreases m - g
  {
    hide GroupsText, GroupText;
    if g < m {
      FirstGroup(a, g, k);
      FirstGroup(a, g, m);
      GroupsSplit(a, g + 1, m, k);
      Associates(GroupText(a, g), GroupsText(a, g + 1, m), GroupsText(a, m, k));
    } else {
      NoGroupsText(a, g, m);
      Associates(GroupsText(a, m, k), "", "");
    }
  }

  lemma {:induction false} EighthGroup(a: Addr)
    ensures GroupsText(a, 7, 8) == Hex(Word(a, 7))
  {
    assert GroupsText(a, 8, 8) == "";
  }

  lemma {:induction false} NotColon(a: Addr, g: nat, k: nat, rest: string)
    requires g < k <= 8
    ensures (GroupsText(a, g, k) + rest)[0] != ':'
  {
    hide HexDigit;
    var w := Word(a, g);
    WordBytes(a, g);
    HexDigitValue(if w < 16 then w else if w < 256 then w / 16 else if w < 4096 then w / 256 else w / 4096);
    assert GroupsText(a, g, k)[0] == Hex(w)[0];
  }

  /** The groups from y to the end of the text. */
  lemma TailRun(text: string, i: nat, st: State, a: Addr, y: nat) returns (f: State)
    requires y <= 7 && At(text, i, GroupsText(a, y, 8)) && i + |GroupsText(a, y, 8)| == |text|
    requires Fresh(st) && st.n > 7 - y
    ensures Run(text, i, st) == Finish(f) && f.zero == st.zero && f.nibbles > 0
    ensures f.out == st.out + a[2 * y..14] && f.word == Word(a, 7) && f.n == st.n - (7 - y)
  {
    hide Run, Finish, Hex;
    GroupsSplit(a, y, 7, 8);
    EighthGroup(a);
    AtParts(text, i, GroupsText(a, y, 7), GroupsText(a, 7, 8));
    GroupsRun(text, i, st, a, y, 7);
    var j := i + |GroupsText(a, y, 7)|;
    var st1 := st.(out := st.out + a[2 * y..14], digit := if y < 7 then Some(j) else st.digit, n := st.n - (7 - y));
    LastGroup(text, j, st1, a);
    f := st1.(nibbles := |Hex(Word(a, 7))|, word := Word(a, 7));
  }

  lemma LastBytes(a: Addr, x: seq<Byte>, y: nat)
    requires y <= 7
    ensures x + a[2 * y..14] + [High(Word(a, 7)), Low(Word(a, 7))] == x + a[2 * y..]
  {
    WordBytes(a, 7);
    assert a[2 * y..14] + [a[14], a[15]] == a[2 * y..];
  }

  lemma NoGap(a: Addr)
    ensures Inet6Addr(Text(a, None, 1)) == Some(a)
  {
    hide Run, GroupsText;
    var text := Text(a, None, 1);
    GroupsNotEmpty(a, 0, 8);
    NotColon(a, 0, 8, "");
    assert text + "" == text;
    AtStart(text);
    var f := TailRun(text, 0, Start(), a, 0);
    LastBytes(a, [], 0);
    assert [] + a[2 * 0..14] == Start().out + a[2 * 0..14];
    assert [] + a[2 * 0..] == a;
    NoGapFinish(f, a);
    assert |text| > 0;
    assert Inet6Addr(text) == Run(text, 0, Start());
  }

  lemma NoGapFinish(f: State, a: Addr)
    requires f.zero.None? && f.nibbles > 0 && f.n == 1 && f.out + [High(f.word), Low(f.word)] == a
    ensures Finish(f) == Some(a)
  {
  }

  lemma {:induction false} GroupsNotEmpty(a: Addr, g: nat, k: nat)
    requires g < k <= 8
    ensures |GroupsText(a, g, k)| > 0
  {
  }

  /** Bytes in a run of zero groups. */
  lemma {:induction false} ZeroBytes(a: Addr, z: nat, y: nat)
    requires z <= y <= 8 && ZeroRun(a, z, y - z)
    ensures a[..2 * z] + Zeros(2 * (y - z)) + a[2 * y..] == a
  {
    forall k | 2 * z <= k < 2 * y ensures a[k] == 0 {
      assert Word(a, k / 2) == 0;
    }
  }

  /** The groups before the gap, and the gap. */
  lemma {:induction false} GapRun(text: string, i: nat, a: Addr, z: nat)
    requires z <= 6 && At(text, i, GroupsText(a, 0, z) + ":")
    ensures var j := i + |GroupsText(a, 0, z)| + 1;
            Run(text, i, Start()) == Run(text, j, State(a[..2 * z], Some(2 * z), Some(j), 0, 0, 8 - z))
  {
    hide Run, GroupsText;
    AtParts(text, i, GroupsText(a, 0, z), ":");
    GroupsRun(text, i, Start(), a, 0, z);
    var j := i + |GroupsText(a, 0, z)|;
    assert [] + a[2 * 0..2 * z] == a[..2 * z];
    AtChar(text, j, ":", 0);
    GapStep(text, j, State(a[..2 * z], None, if 0 < z then Some(j) else None, 0, 0, 8 - z));
  }

  lemma GapStep(text: string, j: nat, st: State)
    requires j < |text| && text[j] == ':' && Fresh(st) && st.zero.None?
    ensures Run(text, j, st) == Run(text, j + 1, st.(zero := Some(|st.out|), digit := Some(j + 1)))
  {
  }

  /** Where the parser begins in a text with a gap. */
  lemma {:induction false} GapStart(a: Addr, z: nat, rest: string)
    requires z <= 6
    ensures var i := if z == 0 then 1 else 0;
            var text := (if z == 0 then ":" else "") + GroupsText(a, 0, z) + ":" + rest;
            Inet6Addr(text) == Run(text, i, Start()) && At(text, i, GroupsText(a, 0, z) + ":" + rest)
  {
    hide Run, GroupsText;
    var text := (if z == 0 then ":" else "") + GroupsText(a, 0, z) + ":" + rest;
    var t := GroupsText(a, 0, z) + ":" + rest;
    if z == 0 {
      assert text == ":" + t;
    } else {
      NotColon(a, 0, z, ":" + rest);
      assert GroupsText(a, 0, z) + (":" + rest) == t;
      assert text == t;
    }
  }

  /** The groups behind the gap, up to the end. */
  lemma BehindGap(text: string, i: nat, a: Addr, z: nat, y: nat, digit: Option<nat>)
    requires z + 2 <= y <= 8 && ZeroRun(a, z, y - z)
    requires At(text, i, GroupsText(a, y, 8)) && i + |GroupsText(a, y, 8)| == |text|
    ensures Run(text, i, State(a[..2 * z], Some(2 * z), digit, 0, 0, 8 - z)) == Some(a)
  {
    var st := State(a[..2 * z], Some(2 * z), digit, 0, 0, 8 - z);
    if y == 8 {
      EndInGap(text, i, a, z, st);
    } else {
      GroupsAfterGap(text, i, a, z, y, st);
    }
  }

  lemma {:induction false} GroupsAfterGap(text: string, i: nat, a: Addr, z: nat, y: nat, st: State)
    requires z + 2 <= y <= 7 && ZeroRun(a, z, y - z) && st == State(a[..2 * z], Some(2 * z), st.digit, 0, 0, 8 - z)
    requires At(text, i, GroupsText(a, y, 8)) && i + |GroupsText(a, y, 8)| == |text|
    ensures Run(text, i, st) == Some(a)
  {
    hide Run, GroupsText, Finish, Hex;
    ZeroBytes(a, z, y);
    var f := TailRun(text, i, st, a, y);
    LastBytes(a, a[..2 * z], y);
    FillGap(f, a[..2 * z], a[2 * y..]);
  }

  /** Zeros go in where the gap is. */
  lemma FillGap(f: State, x: seq<Byte>, y: seq<Byte>)
    requires f.out + [High(f.word), Low(f.word)] == x + y && f.zero == Some(|x|) && f.nibbles > 0 && f.n > 1
    ensures Finish(f) == Some(x + Zeros(2 * (f.n - 1)) + y)
  {
    assert (x + y)[..|x|] == x && (x + y)[|x|..] == y;
  }

  lemma {:induction false} EndInGap(text: string, i: nat, a: Addr, z: nat, st: State)
    requires z <= 6 && ZeroRun(a, z, 8 - z) && i == |text| && st == State(a[..2 * z], Some(2 * z), st.digit, 0, 0, 8 - z)
    ensures Run(text, i, st) == Some(a)
  {
    ZeroBytes(a, z, 8);
    assert (a[..2 * z] + [0, 0])[..2 * z] == a[..2 * z] && (a[..2 * z] + [0, 0])[2 * z..] == [0, 0];
    assert Zeros(2 * (7 - z)) + [0, 0] == Zeros(2 * (8 - z));
    assert a[..2 * z] + Zeros(2 * (7 - z)) + [0, 0] == a[..2 * z] + (Zeros(2 * (7 - z)) + [0, 0]);
    assert a[..2 * z] + Zeros(2 * (8 - z)) + a[16..] == a[..2 * z] + Zeros(2 * (8 - z));
  }

  lemma {:induction false} GapText(a: Addr, z: nat, max: nat)
    requires z <= 8 && !DottedTail(a, Some(z), max)
    ensures Text(a, Some(z), max)
         == (if z == 0 then ":" else "") + GroupsText(a, 0, z) + ":" + GroupsText(a, z + max, 8)
  {
    hide GroupsText, DottedText;
  }

  lemma WithGap(a: Addr, z: nat, max: nat)
    requires max >= 2 && ZeroRun(a, z, max) && !DottedTail(a, Some(z), max)
    ensures Inet6Addr(Text(a, Some(z), max)) == Some(a)
  {
    hide Run, GroupsText, Text, Inet6Addr, DottedTail;
    var rest := GroupsText(a, z + max, 8);
    var text := Text(a, Some(z), max);
    var i := if z == 0 then 1 else 0;
    GapText(a, z, max);
    GapStart(a, z, rest);
    AtParts(text, i, GroupsText(a, 0, z) + ":", rest);
    GapRun(text, i, a, z);
    var j := i + |GroupsText(a, 0, z)| + 1;
    BehindGap(text, j, a, z, z + max, Some(j));
  }

  /** The IPv4 part behind the gap. */
  lemma {:induction false} DottedBehindGap(text: string, i: nat, a: Addr, max: nat)
    requires 5 <= max <= 7 && ZeroRun(a, 0, max)
    requires At(text, i, GroupsText(a, max, 6) + DottedText(a)) && i + |GroupsText(a, max, 6) + DottedText(a)| == |text|
    ensures Run(text, i, State([], Some(0), Some(i), 0, 0, 8)) == if Tail(a) == INADDR_NONE then None else Some(a)
  {
    hide Run, GroupsText, DottedText, Dec, Finish, DottedTail;
    var k := if max < 6 then max else 6;
    var st := State([], Some(0), Some(i), 0, 0, 8);
    NoGroups(a, max);
    AtParts(text, i, GroupsText(a, k, 6), DottedText(a));
    GroupsRun(text, i, st, a, k, 6);
    var j := i + |GroupsText(a, k, 6)|;
    assert [] + a[2 * k..2 * 6] == a[2 * k..12];
    var st1 := State(a[2 * k..12], Some(0), Some(j), 0, 0, 8 - (6 - k));
    DottedRun(text, j, st1, a);
    DottedFinish(State(st1.out + [a[12], a[13]], Some(0), Some(j), |Dec(a[12])|, Tail(a), st1.n - 1), a, k);
  }

  lemma DottedFinish(f: State, a: Addr, k: nat)
    requires 5 <= k <= 6 && ZeroRun(a, 0, k) && f.zero == Some(0) && f.nibbles > 0 && f.n == 1 + k
    requires f.out == a[2 * k..12] + [a[12], a[13]] && f.word == Tail(a)
    ensures Finish(f) == Some(a)
  {
    hide Finish, Tail;
    TailBytes(a);
    ZeroBytes(a, 0, k);
    assert f.out + [High(f.word), Low(f.word)] == [] + a[2 * k..];
    FillGap(f, [], a[2 * k..]);
    assert a[..2 * 0] == [];
  }

  lemma NoGroups(a: Addr, max: nat)
    ensures GroupsText(a, max, 6) == GroupsText(a, if max < 6 then max else 6, 6)
    ensures GroupsText(a, 6, 6) == ""
  {
  }

  lemma WithDots(a: Addr, max: nat)
    requires ZeroRun(a, 0, max) && DottedTail(a, Some(0), max)
    ensures Inet6Addr(Text(a, Some(0), max)) == if Tail(a) == INADDR_NONE then None else Some(a)
  {
    hide Run, GroupsText, DottedText;
    var rest := GroupsText(a, max, 6) + DottedText(a);
    var text := Text(a, Some(0), max);
    GapStart(a, 0, rest);
    assert ":" + GroupsText(a, 0, 0) + ":" + rest == text;
    AtParts(text, 1, GroupsText(a, 0, 0) + ":", rest);
    GapRun(text, 1, a, 0);
    var j := 1 + |GroupsText(a, 0, 0)| + 1;
    assert a[..2 * 0] == [];
    DottedBehindGap(text, j, a, max);
  }

  /** Parsing what was printed gives the address back, except where the text ends in
      255.255.255.255, which cannot be told from an error. */
  lemma RoundTrip(a: Addr, z: Option<nat>, max: nat)
    requires BestRun(a, z, max)
    ensures z.Some? ==> z.v <= 8
    ensures var lost := DottedTail(a, z, max) && a[12] == a[13] == a[14] == a[15] == 255;
            Inet6Addr(Text(a, z, max)) == if lost then None else Some(a)
  {
    TailBytes(a);
    if z.None? {
      NoGap(a);
    } else if DottedTail(a, z, max) {
      WithDots(a, max);
    } else {
      WithGap(a, z.v, max);
    }
  }

  /** One of the addresses that do not come back: it is printed as "::255.255.255.255". */
  lemma LostAddress() returns (a: Addr)
    ensures a == Zeros(12) + [255, 255, 255, 255]
    ensures BestRun(a, Some(0), 6) && DottedTail(a, Some(0), 6) && Inet6Addr(Text(a, Some(0), 6)) == None
  {
    a := Zeros(12) + [255, 255, 255, 255];
    assert Word(a, 6) == 0xffff && Word(a, 7) == 0xffff;
    forall y, len | ZeroRun(a, y, len) ensures !(y <= 6 < y + len) {
    }
    RoundTrip(a, Some(0), 6);
  }
}
