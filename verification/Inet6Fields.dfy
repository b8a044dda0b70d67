/** Which texts ngx_inet_addr and ngx_inet6_addr accept, told by the fields between their dots and
    colons, and what these texts mean. */
module Inet6Fields {
  import opened Inet6Text

  /** The text between one separator and the next; a text without any is one field. */
  function Fields(s: string, sep: char): (fs: seq<string>)
    ensures fs != []
  {
    if s == "" then [""]
    else
      var fs := Fields(s[1..], sep);
      if s[0] == sep then [""] + fs else [[s[0]] + fs[0]] + fs[1..]
  }

  // ---------------------------------------------------------------- four octets

  predicate Digits(s: string) {
    forall k :: 0 <= k < |s| ==> '0' <= s[k] <= '9'
  }

  /** The decimal number that follows o. */
  function Decimal(o: nat, s: string): nat
    requires Digits(s)
    decreases |s|
  {
    if s == "" then o else Decimal(o * 10 + (s[0] as int - '0' as int), s[1..])
  }

  /** Digits, or none at all, that say a number below 256. */
  predicate Octet(s: string) { Digits(s) && Decimal(0, s) <= 255 }

  predicate Quad(fs: seq<string>) {
    |fs| == 4 && forall k :: 0 <= k < 4 ==> Octet(fs[k])
  }

  function QuadValue(fs: seq<string>): nat
    requires Quad(fs)
  {
    ((Decimal(0, fs[0]) * 256 + Decimal(0, fs[1])) * 256 + Decimal(0, fs[2])) * 256 + Decimal(0, fs[3])
  }

  lemma {:induction false} DecimalGrows(o: nat, s: string)
    requires Digits(s)
    ensures o <= Decimal(o, s)
    decreases |s|
  {
    if s != "" {
      DecimalGrows(o * 10 + (s[0] as int - '0' as int), s[1..]);
    }
  }

  /** The octets that are left: the rest of one that began with o, and all the others. */
  predicate Octets(o: nat, fs: seq<string>)
    decreases |fs|
  {
    && fs != []
    && Digits(fs[0]) && Decimal(o, fs[0]) <= 255
    && (|fs| > 1 ==> Octets(0, fs[1..]))
  }

  function Joined(addr: nat, o: nat, fs: seq<string>): nat
    requires Octets(o, fs)
    decreases |fs|
  {
    var a := (addr * 256 + Decimal(o, fs[0])) % 0x1_0000_0000;
    if |fs| == 1 then a else Joined(a, 0, fs[1..])
  }

  /** The loop of ngx_inet_addr reads octets. */
  lemma {:induction false} InetReads(text: string, i: nat, addr: nat, o: nat, n: nat)
    requires i <= |text| && o <= 255
    ensures var fs := Fields(text[i..], '.');
            InetFrom(text, i, addr, o, n)
            == if n + |fs| == 4 && Octets(o, fs) then Joined(addr, o, fs) else INADDR_NONE
    decreases |text| - i
  {
    var fs := Fields(text[i..], '.');
    if i < |text| {
      var c := text[i];
      var rest := Fields(text[i + 1..], '.');
      assert text[i..][0] == c && text[i..][1..] == text[i + 1..];
      if '0' <= c <= '9' {
        var p := o * 10 + (c as int - '0' as int);
        OneDigit(c, o, fs, rest, addr);
        if p <= 255 {
          InetReads(text, i + 1, addr, p, n);
        }
      } else if c == '.' {
        assert fs[1..] == rest;
        InetReads(text, i + 1, (addr * 256 + o) % 0x1_0000_0000, 0, n + 1);
      } else {
        assert fs[0][0] == c;
      }
    }
  }

  lemma {:induction false} OneDigit(c: char, o: nat, fs: seq<string>, rest: seq<string>, addr: nat)
    requires '0' <= c <= '9' && rest != [] && fs == [[c] + rest[0]] + rest[1..]
    ensures var p := o * 10 + (c as int - '0' as int);
            && (Octets(o, fs) <==> p <= 255 && Octets(p, rest))
            && (Octets(o, fs) ==> Joined(addr, o, fs) == Joined(addr, p, rest))
  {
    var p := o * 10 + (c as int - '0' as int);
    assert fs[1..] == rest[1..];
    assert fs[0][0] == c && fs[0][1..] == rest[0];
    assert Digits(fs[0]) <==> Digits(rest[0]) by {
      assert forall k :: 0 <= k < |rest[0]| ==> fs[0][k + 1] == rest[0][k];
    }
    if Digits(rest[0]) {
      DecimalGrows(p, rest[0]);
    }
  }

  /** ngx_inet_addr accepts four octets between three dots, and says their value. */
  lemma {:induction false} InetMeans(text: string)
    ensures var fs := Fields(text, '.');
            InetAddr(text) == if Quad(fs) then QuadValue(fs) else INADDR_NONE
  {
    hide InetFrom, Decimal, Digits, Fields;
    var fs := Fields(text, '.');
    assert text[0..] == text;
    InetReads(text, 0, 0, 0, 0);
    if |fs| == 4 {
      FourOctets(fs);
    }
  }

  lemma {:induction false} Peel(addr: nat, fs: seq<string>)
    requires fs != []
    ensures Octets(0, fs) <==> Octet(fs[0]) && (|fs| == 1 || Octets(0, fs[1..]))
    ensures Octets(0, fs) && addr < 0x100_0000 ==>
              var a := addr * 256 + Decimal(0, fs[0]);
              Joined(addr, 0, fs) == if |fs| == 1 then a else Joined(a, 0, fs[1..])
  {
  }

  lemma {:induction false} FourOctets(fs: seq<string>)
    requires |fs| == 4
    ensures Octets(0, fs) <==> Quad(fs)
    ensures Quad(fs) ==> Joined(0, 0, fs) == QuadValue(fs)
  {
    hide Decimal, Octet, Octets, Joined;
    var a, b, c := fs[1..], fs[1..][1..], fs[1..][1..][1..];
    assert a[0] == fs[1] && b[0] == fs[2] && c[0] == fs[3] && |c| == 1;
    Peel(0, fs);
    Peel(0, a);
    Peel(0, b);
    Peel(0, c);
    if Quad(fs) {
      var w := OctetValue(fs[0]);
      var x := w * 256 + OctetValue(fs[1]);
      var y := x * 256 + OctetValue(fs[2]);
      Peel(w, a);
      Peel(x, b);
      Peel(y, c);
    }
  }

  function OctetValue(s: string): (v: nat)
    requires Octet(s)
    ensures v <= 255 && v == Decimal(0, s)
  {
    Decimal(0, s)
  }

  // ---------------------------------------------------------------- eight groups

  predicate HexDigits(s: string) {
    forall k :: 0 <= k < |s| ==> HexValue(s[k]).Some?
  }

  /** The hexadecimal number that follows w. */
  function HexNumber(w: nat, s: string): nat
    requires HexDigits(s)
    decreases |s|
  {
    if s == "" then w else HexNumber(w * 16 + HexValue(s[0]).v, s[1..])
  }

  predicate Group(s: string) { 1 <= |s| <= 4 && HexDigits(s) }

  /** Four octets, the first of one to four digits, but not 255.255.255.255. */
  predicate Dotted(s: string) {
    var q := Fields(s, '.');
    Quad(q) && 1 <= |q[0]| <= 4 && QuadValue(q) != INADDR_NONE
  }

  function Two(w: nat): (b: seq<Byte>)
    ensures |b| == 2
  {
    [High(w), Low(w)]
  }

  predicate Groups(fs: seq<string>) {
    forall k {:trigger fs[k]} :: 0 <= k < |fs| ==> fs[k] == "" || Group(fs[k])
  }

  /** The bytes of groups, the empty one standing for a gap of so many groups. */
  function Bytes(fs: seq<string>, gap: nat): seq<Byte>
    requires Groups(fs)
  {
    if fs == [] then []
    else (if fs[0] == "" then Zeros(2 * gap) else Two(HexNumber(0, fs[0]))) + Bytes(fs[1..], gap)
  }

  function Gaps(fs: seq<string>): nat {
    if fs == [] then 0 else (if fs[0] == "" then 1 else 0) + Gaps(fs[1..])
  }

  /** The last field: a group, four octets, which stand for two groups, or nothing, which after a gap
      is a group of zeros. */
  function LastBytes(f: string): seq<Byte>
    requires f == "" || Group(f) || Dotted(f)
  {
    if Dotted(f) then
      var v := QuadValue(Fields(f, '.'));
      Two(v / 0x1_0000) + Two(v)
    else if f == "" then Two(0)
    else Two(HexNumber(0, f))
  }

  function Front(fs: seq<string>): seq<string>
    requires fs != []
  {
    fs[..|fs| - 1]
  }

  function Last(fs: seq<string>): string
    requires fs != []
  {
    fs[|fs| - 1]
  }

  function NotEmpty(fs: seq<string>): nat {
    if fs == [] then 0 else (if fs[0] == "" then 0 else 1) + NotEmpty(fs[1..])
  }

  /** How many groups the fields say. */
  function Count(fs: seq<string>): (n: nat)
    requires fs != []
    ensures n >= 1
  {
    NotEmpty(Front(fs)) + if Dotted(Last(fs)) then 2 else 1
  }

  /** Fields between colons that say an address: all but the last are groups, one of them at most is
      empty; the last one is as above; and there are eight groups, or fewer and a gap. */
  predicate Accepted(fs: seq<string>)
    requires fs != []
  {
    && Groups(Front(fs)) && Gaps(Front(fs)) <= 1
    && (Group(Last(fs)) || (Last(fs) == "" && Gaps(Front(fs)) == 1) || (Dotted(Last(fs)) && |fs| > 1))
    && (if Gaps(Front(fs)) == 1 then Count(fs) < 8 else Count(fs) == 8)
  }

  function Meaning(fs: seq<string>): seq<Byte>
    requires fs != [] && Accepted(fs)
  {
    Bytes(Front(fs), 8 - Count(fs)) + LastBytes(Last(fs))
  }

  // ---------------------------------------------------------------- field by field

  /** What ngx_inet6_addr makes of the fields when it has written `out`, seen the gap at `zero`, and
      lacks n groups. */
  function Fold(fs: seq<string>, out: seq<Byte>, zero: Option<nat>, n: nat, colon: bool): Option<seq<Byte>>
    requires fs != []
    decreases |fs|
  {
    var f := fs[0];
    if |fs| == 1 then
      if colon && Dotted(f) && n >= 2 then
        var v := QuadValue(Fields(f, '.'));
        Finish(State(out + Two(v / 0x1_0000), zero, None, |f|, v, n - 1))
      else if f == "" || Group(f) then Finish(State(out, zero, None, |f|, HexNumber(0, f), n))
      else None
    else if f == "" then if zero.Some? then None else Fold(fs[1..], out, Some(|out|), n, true)
    else if Group(f) && n > 1 then Fold(fs[1..], out + Two(HexNumber(0, f)), zero, n - 1, true)
    else None
  }

  lemma {:induction false} HexNumberPush(w: nat, s: string, c: char)
    requires HexDigits(s) && HexValue(c).Some?
    ensures HexDigits(s + [c]) && HexNumber(w, s + [c]) == HexNumber(w, s) * 16 + HexValue(c).v
    decreases |s|
  {
    var t := s + [c];
    if s != "" {
      assert t[0] == s[0] && t[1..] == s[1..] + [c];
      HexNumberPush(w * 16 + HexValue(s[0]).v, s[1..], c);
    } else {
      assert t[1..] == "";
    }
  }

  /** The first field reaches at least to the first separator. */
  lemma {:induction false} FirstField(s: string, sep: char, m: nat)
    requires m <= |s| && forall k :: 0 <= k < m ==> s[k] != sep
    ensures var fs := Fields(s, sep);
            && |fs[0]| >= m && fs[0][..m] == s[..m]
            && (m == |s| ==> fs == [s])
            && (m < |s| && s[m] == sep ==> fs == [s[..m]] + Fields(s[m + 1..], sep))
            && (m < |s| && s[m] != sep ==> |fs[0]| > m && fs[0][m] == s[m])
  {
    if m > 0 {
      FirstField(s[1..], sep, m - 1);
      var r := Fields(s[1..], sep);
      assert s == [s[0]] + s[1..];
      if m < |s| {
        assert s[1..][m - 1] == s[m] && s[1..][m..] == s[m + 1..];
        assert [s[0]] + s[1..][..m - 1] == s[..m];
      }
    }
  }

  /** The field that begins at `start`, read as far as i. */
  ghost predicate InField(text: string, start: nat, i: nat, st: State) {
    && start <= i <= |text| && HexDigits(text[start..i])
    && st.nibbles == i - start <= 4 && st.word == HexNumber(0, text[start..i])
    && (st.digit.Some? ==> st.digit.v == start)
  }

  ghost function FoldFrom(text: string, start: nat, st: State): Option<seq<Byte>>
    requires start <= |text|
  {
    Fold(Fields(text[start..], ':'), st.out, st.zero, st.n, st.digit.Some?)
  }

  /** The end depends on whether there were digits, not on where. */
  lemma FinishSame(a: State, b: State)
    requires a.out == b.out && a.zero == b.zero && a.word == b.word && a.n == b.n && (a.nibbles == 0 <==> b.nibbles == 0)
    ensures Finish(a) == Finish(b)
  {
  }

  lemma FieldSoFar(text: string, start: nat, i: nat)
    requires start <= i <= |text| && HexDigits(text[start..i])
    ensures var t, m := text[start..], i - start;
            && t[..m] == text[start..i]
            && (forall k :: 0 <= k < m ==> t[k] != ':' && t[k] != '.')
            && (i < |text| ==> t[m] == text[i] && t[m + 1..] == text[i + 1..])
  {
    var p := text[start..i];
    forall k | 0 <= k < i - start ensures text[start..][k] != ':' && text[start..][k] != '.' {
      assert HexValue(p[k]).Some?;
    }
  }

  lemma AtEnd(text: string, start: nat, st: State)
    requires InField(text, start, |text|, st)
    ensures Finish(st) == FoldFrom(text, start, st)
  {
    hide Fields, HexNumber, Finish;
    var p := text[start..];
    assert text[start..|text|] == p;
    FieldSoFar(text, start, |text|);
    FirstField(p, ':', |p|);
    FirstField(p, '.', |p|);
    FinishSame(st, State(st.out, st.zero, None, |p|, HexNumber(0, p), st.n));
  }

  lemma AtColon(text: string, start: nat, i: nat, st: State)
    requires InField(text, start, i, st) && i < |text| && text[i] == ':'
    ensures match Step(text, i, st)
            case Fail => FoldFrom(text, start, st) == None
            case Last(_) => false
            case Go(st') => InField(text, i + 1, i + 1, st') && FoldFrom(text, start, st) == FoldFrom(text, i + 1, st')
  {
    hide Fields, Finish, InetAddr, Dotted;
    var p, t := text[start..i], text[start..];
    FieldSoFar(text, start, i);
    FirstField(t, ':', i - start);
    var rest := Fields(text[i + 1..], ':');
    assert Fields(t, ':') == [p] + rest && ([p] + rest)[1..] == rest;
    assert text[i + 1..i + 1] == "";
  }

  /** Octets and dots only. */
  lemma {:induction false} QuadChars(t: string, k: nat)
    requires k < |t| && forall j :: 0 <= j < |Fields(t, '.')| ==> Digits(Fields(t, '.')[j])
    ensures t[k] == '.' || '0' <= t[k] <= '9'
    decreases |t|
  {
    var fs, r := Fields(t, '.'), Fields(t[1..], '.');
    if k > 0 {
      forall j | 0 <= j < |r| ensures Digits(r[j]) {
        if t[0] == '.' {
          assert fs[j + 1] == r[j];
        } else if j > 0 {
          assert fs[j] == r[j];
        } else {
          assert fs[0][1..] == r[0];
          assert forall l :: 0 <= l < |r[0]| ==> fs[0][l + 1] == r[0][l];
        }
      }
      QuadChars(t[1..], k - 1);
      assert t[1..][k - 1] == t[k];
    } else if t[0] != '.' {
      assert fs[0][0] == t[0];
    }
  }

  lemma {:induction false} SingleField(t: string, sep: char)
    ensures |Fields(t, sep)| == 1 ==> Fields(t, sep) == [t]
    decreases |t|
  {
    if t != "" {
      SingleField(t[1..], sep);
      assert t == [t[0]] + t[1..];
    }
  }

  lemma {:induction false} QuadNoColon(t: string)
    requires Quad(Fields(t, '.'))
    ensures Fields(t, ':') == [t]
  {
    hide Fields;
    forall k | 0 <= k < |t| ensures t[k] != ':' {
      QuadChars(t, k);
    }
    FirstField(t, ':', |t|);
  }

  lemma AtDot(text: string, start: nat, i: nat, st: State)
    requires InField(text, start, i, st) && i < |text| && text[i] == '.'
    ensures match Step(text, i, st)
            case Fail => FoldFrom(text, start, st) == None
            case Last(st') => FoldFrom(text, start, st) == Finish(st')
            case Go(_) => false
  {
    hide Fields, Finish, InetAddr, QuadValue, Quad, HexNumber;
    var p, t, m := text[start..i], text[start..], i - start;
    FieldSoFar(text, start, i);
    FirstField(t, ':', m);
    FirstField(t, '.', m);
    var fs, q := Fields(t, ':'), Fields(t, '.');
    assert HexValue(fs[0][m]).None?;
    SingleField(t, ':');
    InetMeans(t);
    if Quad(q) {
      QuadNoColon(t);
    }
    if Step(text, i, st).Last? {
      FinishSame(Step(text, i, st).st,
                 State(st.out + Two(QuadValue(q) / 0x1_0000), st.zero, None, |t|, QuadValue(q), st.n - 1));
    }
  }

  lemma NoGroup(text: string, start: nat, i: nat, st: State)
    requires InField(text, start, i, st) && i < |text| && text[i] != ':' && text[i] != '.'
    requires st.nibbles >= 4 || HexValue(text[i]).None?
    ensures Step(text, i, st).Fail? && FoldFrom(text, start, st) == None
  {
    hide Fields, Finish, InetAddr, QuadValue, HexNumber;
    var t, m := text[start..], i - start;
    FieldSoFar(text, start, i);
    FirstField(t, ':', m);
    var f := Fields(t, ':')[0];
    assert forall k :: 0 <= k < m ==> f[k] == f[..m][k];
    FirstField(f, '.', m);
    assert f[m] == text[i];
    var q := Fields(f, '.');
    assert q[0][m] == text[i];
  }

  lemma OneMore(text: string, start: nat, i: nat, st: State)
    requires InField(text, start, i, st) && i < |text| && st.nibbles < 4 && HexValue(text[i]).Some?
    ensures Step(text, i, st).Go?
    ensures var st' := Step(text, i, st).st;
            InField(text, start, i + 1, st') && FoldFrom(text, start, st') == FoldFrom(text, start, st)
  {
    hide Fold, Fields, InetAddr, HexDigits, HexNumber;
    SliceGrows(text, start, i);
    HexNumberPush(0, text[start..i], text[i]);
  }

  lemma SliceGrows(text: string, start: nat, i: nat)
    requires start <= i < |text|
    ensures text[start..i + 1] == text[start..i] + [text[i]]
  {
  }

  /** What the parser makes of the rest of the text is what its fields say. */
  lemma {:induction false} RunFolds(text: string, start: nat, i: nat, st: State)
    requires InField(text, start, i, st)
    ensures Run(text, i, st) == FoldFrom(text, start, st)
    decreases |text| - i
  {
    hide Fold, Fields, HexNumber, HexDigits, Finish, InetAddr, FoldFrom;
    if i == |text| {
      AtEnd(text, start, st);
    } else if text[i] == ':' {
      AtColon(text, start, i, st);
      if Step(text, i, st).Go? {
        RunFolds(text, i + 1, i + 1, Step(text, i, st).st);
      }
    } else if text[i] == '.' {
      AtDot(text, start, i, st);
    } else if st.nibbles >= 4 || HexValue(text[i]).None? {
      NoGroup(text, start, i, st);
    } else {
      OneMore(text, start, i, st);
      RunFolds(text, start, i + 1, Step(text, i, st).st);
    }
  }

  // ---------------------------------------------------------------- all fields at once

  ghost predicate AcceptedFrom(fs: seq<string>, zero: Option<nat>, n: nat, colon: bool)
    requires fs != []
  {
    && Groups(Front(fs))
    && Gaps(Front(fs)) <= (if zero.Some? then 0 else 1)
    && (Group(Last(fs)) || (Last(fs) == "" && (zero.Some? || Gaps(Front(fs)) == 1)) || (Dotted(Last(fs)) && (colon || |fs| > 1)))
    && (if zero.Some? || Gaps(Front(fs)) == 1 then Count(fs) < n else Count(fs) == n)
  }

  ghost function MeaningFrom(fs: seq<string>, out: seq<Byte>, zero: Option<nat>, n: nat, colon: bool): seq<Byte>
    requires fs != [] && AcceptedFrom(fs, zero, n, colon) && (zero.Some? ==> zero.v <= |out|)
  {
    var gap := n - Count(fs);
    (if zero.Some? then out[..zero.v] + Zeros(2 * gap) + out[zero.v..] else out) + Bytes(Front(fs), gap) + LastBytes(Last(fs))
  }

  lemma {:induction false} NoGapNoZeros(fs: seq<string>, a: nat, b: nat)
    requires Groups(fs) && Gaps(fs) == 0
    ensures Bytes(fs, a) == Bytes(fs, b)
  {
    if fs != [] {
      NoGapNoZeros(fs[1..], a, b);
    }
  }

  lemma OneFieldFront(f: string)
    ensures Front([f]) == [] && Last([f]) == f && Gaps([]) == NotEmpty([]) == 0 && Groups([]) && Bytes([], 0) == []
    ensures Count([f]) == if Dotted(f) then 2 else 1
    ensures Dotted(f) ==> f != "" && !Group(f)
  {
    if Dotted(f) {
      DottedIsNoGroup(f);
    }
  }

  lemma DottedIsNoGroup(f: string)
    requires Dotted(f)
    ensures f != "" && !Group(f)
  {
    hide Fields, Digits;
    if HexDigits(f) {
      assert forall k :: 0 <= k < |f| ==> HexValue(f[k]).Some?;
      FirstField(f, '.', |f|);
    }
  }

  lemma {:induction false} LastMeans(f: string, out: seq<Byte>, zero: Option<nat>, n: nat, colon: bool)
    requires n >= 1 && (zero.Some? ==> zero.v <= |out|)
    ensures Fold([f], out, zero, n, colon)
         == if AcceptedFrom([f], zero, n, colon) then Some(MeaningFrom([f], out, zero, n, colon)) else None
  {
    hide Dotted, Fields, HexNumber, Group, QuadValue, Quad;
    OneFieldFront(f);
    GroupDigits(f);
    if AcceptedFrom([f], zero, n, colon) {
      assert Bytes(Front([f]), n - Count([f])) == [];
    }
    if Dotted(f) {
      var v := DottedValue(f);
      assert out + Two(v / 0x1_0000) + [High(v), Low(v)] == out + LastBytes(f);
      if colon && n >= 2 {
        LastJoins(out, out + Two(v / 0x1_0000), LastBytes(f), zero, v, |f|, n - 1, n - 2);
      }
    } else if f == "" || Group(f) {
      var w := HexNumber(0, f);
      assert out + [High(w), Low(w)] == out + LastBytes(f);
      LastJoins(out, out, LastBytes(f), zero, w, |f|, n, n - 1);
    }
  }

  function DottedValue(f: string): nat
    requires Dotted(f)
  {
    QuadValue(Fields(f, '.'))
  }

  /** The end, with so many groups missing. */
  lemma {:induction false} LastJoins(out: seq<Byte>, lead: seq<Byte>, e: seq<Byte>, zero: Option<nat>, w: nat, nibbles: nat, n: nat, gap: nat)
    requires lead + [High(w), Low(w)] == out + e && (zero.Some? ==> zero.v <= |out|) && n == gap + 1
    ensures Finish(State(lead, zero, None, nibbles, w, n))
         == if nibbles == 0 && zero.None? then None
            else if zero.Some? && gap > 0 then Some(out[..zero.v] + Zeros(2 * gap) + out[zero.v..] + [] + e)
            else if zero.None? && gap == 0 then Some(out + [] + e)
            else None
  {
    if zero.Some? {
      assert (out + e)[..zero.v] == out[..zero.v] && (out + e)[zero.v..] == out[zero.v..] + e;
      var x, y, z := out[..zero.v], out[zero.v..], Zeros(2 * gap);
      assert x + z + (y + e) == x + z + y + [] + e;
    }
    assert out + e == out + [] + e;
  }

  lemma {:induction false} GroupDigits(f: string)
    ensures Group(f) || f == "" ==> HexDigits(f)
    ensures Group(f) ==> f != ""
    ensures f == "" ==> HexNumber(0, f) == 0
  {
  }

  lemma {:induction false} FoldMeans(fs: seq<string>, out: seq<Byte>, zero: Option<nat>, n: nat, colon: bool)
    requires fs != [] && n >= 1 && (zero.Some? ==> zero.v <= |out|)
    ensures Fold(fs, out, zero, n, colon)
         == if AcceptedFrom(fs, zero, n, colon) then Some(MeaningFrom(fs, out, zero, n, colon)) else None
    decreases |fs|
  {
    hide Group, Dotted, LastBytes, HexNumber, Finish, AcceptedFrom, MeaningFrom, HexDigits;
    if |fs| == 1 {
      assert fs == [fs[0]];
      LastMeans(fs[0], out, zero, n, colon);
    } else {
      GroupDigits(fs[0]);
      if fs[0] == "" {
        GapFirst(fs, out, zero, n, colon);
        if zero.None? {
          FoldMeans(fs[1..], out, Some(|out|), n, true);
        }
      } else {
        GroupFirst(fs, out, zero, n, colon);
        if Group(fs[0]) && n > 1 {
          FoldMeans(fs[1..], out + Two(HexNumber(0, fs[0])), zero, n - 1, true);
        }
      }
    }
  }

  lemma GapFirst(fs: seq<string>, out: seq<Byte>, zero: Option<nat>, n: nat, colon: bool)
    requires |fs| > 1 && fs[0] == "" && (zero.Some? ==> zero.v <= |out|)
    ensures zero.Some? ==> !AcceptedFrom(fs, zero, n, colon)
    ensures zero.None? ==> (AcceptedFrom(fs, zero, n, colon) <==> AcceptedFrom(fs[1..], Some(|out|), n, true))
    ensures zero.None? && AcceptedFrom(fs, zero, n, colon) ==>
              MeaningFrom(fs, out, zero, n, colon) == MeaningFrom(fs[1..], out, Some(|out|), n, true)
  {
    hide Group, Dotted, LastBytes, HexNumber;
    FirstOfFront(fs);
    if zero.None? && AcceptedFrom(fs, zero, n, colon) {
      var gap := n - Count(fs);
      var z, e := Zeros(2 * gap), LastBytes(Last(fs));
      NoGapNoZeros(Front(fs[1..]), gap, n - Count(fs[1..]));
      assert out + (z + Bytes(Front(fs[1..]), gap)) + e == out + z + Bytes(Front(fs[1..]), gap) + e;
    }
  }

  lemma GroupFirst(fs: seq<string>, out: seq<Byte>, zero: Option<nat>, n: nat, colon: bool)
    requires |fs| > 1 && fs[0] != "" && (zero.Some? ==> zero.v <= |out|)
    ensures !(Group(fs[0]) && n > 1) ==> !AcceptedFrom(fs, zero, n, colon)
    ensures Group(fs[0]) && n > 1 ==> (AcceptedFrom(fs, zero, n, colon) <==> AcceptedFrom(fs[1..], zero, n - 1, true))
    ensures Group(fs[0]) && n > 1 && AcceptedFrom(fs, zero, n, colon) ==>
              HexDigits(fs[0])
              && MeaningFrom(fs, out, zero, n, colon) == MeaningFrom(fs[1..], out + Two(HexNumber(0, fs[0])), zero, n - 1, true)
  {
    hide Group, Dotted, LastBytes, HexNumber, HexDigits;
    FirstOfFront(fs);
    GroupDigits(fs[0]);
    if Group(fs[0]) && n > 1 && AcceptedFrom(fs, zero, n, colon) {
      var gap := n - Count(fs);
      var g, b, e := Two(HexNumber(0, fs[0])), Bytes(Front(fs[1..]), gap), LastBytes(Last(fs));
      if zero.Some? {
        assert (out + g)[..zero.v] == out[..zero.v] && (out + g)[zero.v..] == out[zero.v..] + g;
        var x, y, z := out[..zero.v], out[zero.v..], Zeros(2 * gap);
        assert x + z + y + (g + b) + e == x + z + (y + g) + b + e;
      } else {
        assert out + (g + b) + e == out + g + b + e;
      }
    }
  }

  lemma FirstOfFront(fs: seq<string>)
    requires |fs| > 1
    ensures Front(fs)[0] == fs[0] && Front(fs)[1..] == Front(fs[1..]) && Last(fs[1..]) == Last(fs)
    ensures Groups(Front(fs)) <==> (fs[0] == "" || Group(fs[0])) && Groups(Front(fs[1..]))
  {
    hide Group;
    var a, b := Front(fs), Front(fs[1..]);
    assert forall k :: 0 <= k < |b| ==> b[k] == a[k + 1];
  }

  /** The text without a colon at its beginning. */
  function Body(text: string): string {
    if text != "" && text[0] == ':' then text[1..] else text
  }

  /** ngx_inet6_addr accepts the texts whose fields say an address, and gives that address. */
  lemma Inet6Means(text: string)
    ensures var fs := Fields(Body(text), ':');
            Inet6Addr(text) == if text != "" && Accepted(fs) then Some(Meaning(fs)) else None
  {
    hide Run, Fold, Bytes, LastBytes, Dotted, Fields;
    if text != "" {
      var start := if text[0] == ':' then 1 else 0;
      assert text[start..start] == "" && text[start..] == Body(text);
      RunFolds(text, start, start, Start());
      var fs := Fields(Body(text), ':');
      FoldMeans(fs, [], None, 8, false);
      AcceptedAlike(fs);
    }
  }

  lemma AcceptedAlike(fs: seq<string>)
    requires fs != []
    ensures Accepted(fs) <==> AcceptedFrom(fs, None, 8, false)
    ensures Accepted(fs) ==> Meaning(fs) == MeaningFrom(fs, [], None, 8, false)
  {
    hide Group, Dotted, Bytes, LastBytes, Groups;
    if Accepted(fs) {
      var b, e := Bytes(Front(fs), 8 - Count(fs)), LastBytes(Last(fs));
      assert [] + b + e == b + e;
    }
  }

  // ---------------------------------------------------------------- numerals

  const LowerHex := "0123456789abcdef"
  const UpperHex := "0123456789ABCDEF"

  /** A hexadecimal digit may be read in either case. */
  lemma HexValueIff(c: char, v: nat)
    ensures HexValue(c) == Some(v) <==> v < 16 && (c == LowerHex[v] || c == UpperHex[v])
  {
  }

  /** The numerals that are printed, and what they say. */
  lemma {:induction false} HexIsNumeral(w: nat)
    requires w < 0x1_0000
    ensures var s := Hex(w);
            HexDigits(s) && HexNumber(0, s) == w && (w > 0 ==> s[0] != '0') && forall k :: 0 <= k < |s| ==> s[k] in LowerHex
  {
    if w < 16 {
      HexDigitMeans(w);
      assert Hex(w)[1..] == "";
    } else {
      hide Hex, HexDigit, HexValue;
      HexDigitMeans(w % 16);
      HexIsNumeral(w / 16);
      LastHexDigit(w);
      HexNumberPush(0, Hex(w / 16), HexDigit(w % 16));
    }
  }

  lemma LastHexDigit(w: nat)
    requires 16 <= w < 0x1_0000
    ensures Hex(w) == Hex(w / 16) + [HexDigit(w % 16)]
  {
  }

  lemma HexDigitMeans(n: nat)
    requires n < 16
    ensures HexValue(HexDigit(n)) == Some(n) && HexDigit(n) in LowerHex && (HexDigit(n) == '0' <==> n == 0)
  {
    assert HexDigit(n) == LowerHex[n];
  }

  lemma {:induction false} DecIsNumeral(b: Byte)
    ensures var s := Dec(b); Digits(s) && Decimal(0, s) == b && (b > 0 ==> s[0] != '0')
  {
    if b < 10 {
      assert Dec(b)[1..] == "";
    } else {
      DecIsNumeral(b / 10);
      assert Dec(b) == Dec(b / 10) + ['0' + (b % 10) as char];
      DecimalPush(0, Dec(b / 10), '0' + (b % 10) as char);
    }
  }

  lemma {:induction false} DecimalPush(o: nat, s: string, c: char)
    requires Digits(s) && '0' <= c <= '9'
    ensures Digits(s + [c]) && Decimal(o, s + [c]) == Decimal(o, s) * 10 + (c as int - '0' as int)
    decreases |s|
  {
    if s == "" {
      assert s + [c] == [c] && [c][1..] == "";
    } else {
      assert (s + [c])[0] == s[0] && (s + [c])[1..] == s[1..] + [c];
      DecimalPush(o * 10 + (s[0] as int - '0' as int), s[1..], c);
    }
  }

  /** So octets may be missing, and a colon may stand at the end. */
  lemma LooseTexts()
    ensures InetAddr("...") == 0
    ensures Inet6Addr("::1:") == Some(Zeros(13) + [1, 0, 0])
  {
    var s1 := State([], Some(0), Some(2), 0, 0, 8);
    var s2 := State([], Some(0), Some(2), 1, 1, 8);
    var s3 := State([0, 1], Some(0), Some(4), 0, 0, 7);
    var t := "::1:";
    assert t[0] == ':' && t[1] == ':' && t[2] == '1' && t[3] == ':';
    assert Step(t, 1, Start()) == Go(s1) && Run(t, 1, Start()) == Run(t, 2, s1);
    assert HexValue('1') == Some(1) && Step(t, 2, s1) == Go(s2) && Run(t, 2, s1) == Run(t, 3, s2);
    assert [] + [High(1), Low(1)] == [0, 1];
    assert Step(t, 3, s2) == Go(s3) && Run(t, 3, s2) == Run(t, 4, s3) == Finish(s3);
    assert [0, 1] + [High(0), Low(0)] == [0, 1, 0, 0];
    assert Finish(s3) == Some([] + Zeros(12) + [0, 1, 0, 0]);
    assert [] + Zeros(12) + [0, 1, 0, 0] == Zeros(12) + [0, 1, 0, 0];
    assert Zeros(12) + [0, 1, 0, 0] == Zeros(13) + [1, 0, 0] by {
      ZerosPush(12);
    }
  }

  lemma {:induction false} ZerosPush(n: nat)
    ensures Zeros(n + 1) == Zeros(n) + [0]
  {
    if n > 0 {
      ZerosPush(n - 1);
    }
  }
}
