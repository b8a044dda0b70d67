/** The loops of ngx_inet6_ntop, ngx_inet_addr and ngx_inet6_addr. */
module Inet6 {
  import opened Inet6Fields
  import opened Inet6Text
  import opened Inet6RoundTrip

  // ---------------------------------------------------------------- printing

  /** Among the runs within the first `end` groups, the best is at z and `max` long. */
  ghost predicate BestWithin(a: Addr, z: Option<nat>, max: nat, end: int) {
    && (z.None? ==> max == 1)
    && (z.Some? ==> max >= 2 && ZeroRun(a, z.v, max) && z.v + max <= end)
    && forall y, len :: ZeroRun(a, y, len) && y + len <= end ==> len < max || (len == max && (z.Some? ==> z.v <= y))
  }

  /** A run of zero groups does not reach across a group that is not zero. */
  lemma NotAcross(a: Addr, y: int, len: int, g: nat)
    requires ZeroRun(a, y, len) && g < 8 && Word(a, g) != 0
    ensures y + len <= g || g < y
  {
  }

  /** A run that ends is compared with the best one so far. */
  lemma RunEnds(a: Addr, z: Option<nat>, max: nat, g: nat, n: nat)
    requires g <= 8 && n <= g && BestWithin(a, z, max, g - n) && ZeroRun(a, g - n, n)
    requires g - n > 0 ==> Word(a, g - n - 1) != 0
    ensures if max < n then BestWithin(a, Some(g - n), n, g) else BestWithin(a, z, max, g)
  {
    forall y, len | ZeroRun(a, y, len) && y + len <= g
      ensures y + len <= g - n || y >= g - n || len == 0
    {
      if g - n > 0 {
        NotAcross(a, y, len, g - n - 1);
      }
    }
  }

  /** The first loop of ngx_inet6_ntop: the first of the longest runs of at least two zero groups. */
  method FindRun(a: Addr) returns (zero: Option<nat>, max: nat)
    ensures BestRun(a, zero, max)
  {
    zero, max := None, 1;
    var last := 0;
    var n := 0;
    var i := 0;
    while i < 8
      invariant 0 <= i <= 8 && 0 <= n <= i && 1 <= max
      invariant n > 0 ==> last == i - n
      invariant BestWithin(a, zero, max, i - n) && ZeroRun(a, i - n, n)
      invariant i - n > 0 ==> Word(a, i - n - 1) != 0
    {
      if a[2 * i] != 0 || a[2 * i + 1] != 0 {
        RunEnds(a, zero, max, i, n);
        if max < n {
          zero, max := Some(last), n;
        }
        SkipGroup(a, zero, max, i);
        n := 0;
      } else {
        if n == 0 {
          last := i;
        }
        n := n + 1;
      }
      i := i + 1;
    }
    RunEnds(a, zero, max, 8, n);
    if max < n {
      zero, max := Some(last), n;
    }
  }

  lemma SkipGroup(a: Addr, z: Option<nat>, max: nat, i: nat)
    requires i < 8 && Word(a, i) != 0 && BestWithin(a, z, max, i) && max >= 1
    ensures BestWithin(a, z, max, i + 1)
  {
    forall y, len | ZeroRun(a, y, len) && y + len <= i + 1 ensures y + len <= i || len == 0 {
      NotAcross(a, y, len, i);
    }
  }

  /** ngx_inet6_ntop, with room for the text: it compresses the first of the longest runs of at
      least two zero groups, and what it prints can be parsed back. */
  method Ntop(a: Addr) returns (text: string, ghost zero: Option<nat>, ghost max: nat)
    ensures BestRun(a, zero, max) && (zero.Some? ==> zero.v <= 8) && text == Text(a, zero, max)
    ensures Inet6Addr(text) == if DottedTail(a, zero, max) && a[12] == a[13] == a[14] == a[15] == 255 then None else Some(a)
    ensures Inet6Addr(text) == Some(a) || a[12] == a[13] == a[14] == a[15] == 255
  {
    hide BestRun, FromGroup, GroupsText, DottedText, Text, Inet6Addr;
    var z, m := FindRun(a);
    zero, max := z, m;
    BestFits(a, z, m);
    RoundTrip(a, z, m);
    text := "";
    var n := 8;
    if z == Some(0) {
      if (m == 5 && a[10] == 0xff && a[11] == 0xff) || m == 6 || (m == 7 && a[14] != 0 && a[15] != 1) {
        n := 6;
      }
      text := ":";
    }
    ghost var start := text;
    text := PrintGroups(a, z, m, n, text);
    if n == 6 {
      text := PrintDotted(a, text);
    }
    PrintedText(a, z, m, n, start, text);
  }

  lemma BestFits(a: Addr, z: Option<nat>, max: nat)
    requires BestRun(a, z, max)
    ensures max >= 1 && (z.Some? ==> z.v < 7 && z.v + max <= 8)
  {
  }

  /** The last four bytes as ngx_inet6_ntop prints them. */
  method PrintDotted(a: Addr, text0: string) returns (text: string)
    ensures text == text0 + DottedText(a)
  {
    hide Dec;
    text := text0 + Dec(a[12]) + "." + Dec(a[13]) + "." + Dec(a[14]) + "." + Dec(a[15]);
  }

  lemma Joins(s: string, g: string, h: string, d: string)
    ensures s + (g + (":" + h)) == s + g + ":" + h
    ensures s + (g + (":" + h)) + d == s + g + ":" + (h + d)
  {
  }

  lemma {:induction false} PrintedText(a: Addr, z: Option<nat>, max: nat, n: nat, start: string, text: string)
    requires z.Some? ==> z.v < 7 && z.v + max <= 8
    requires n == (if DottedTail(a, z, max) then 6 else 8) && start == (if z == Some(0) then ":" else "")
    requires max >= 1
    requires var t := start + FromGroup(a, z, max, n, 0);
             text == if n == 6 then t + DottedText(a) else t
    ensures text == Text(a, z, max)
  {
    hide Hex, Dec, FromGroup, GroupsText, DottedText;
    LoopPrints(a, z, max, n);
    if z.None? {
      assert "" + GroupsText(a, 0, 8) == GroupsText(a, 0, 8);
    } else {
      Joins(start, GroupsText(a, 0, z.v), GroupsText(a, z.v + max, n), DottedText(a));
    }
  }

  /** What the second loop prints from group i on. */
  ghost function FromGroup(a: Addr, z: Option<nat>, max: nat, n: nat, i: nat): string
    requires n <= 8 && max >= 1
    decreases n - i
  {
    if i >= n then ""
    else if z == Some(i) then ":" + FromGroup(a, z, max, n, i + max)
    else Hex(Word(a, i)) + (if i < 7 then ":" else "") + FromGroup(a, z, max, n, i + 1)
  }

  /** The second loop of ngx_inet6_ntop. */
  method PrintGroups(a: Addr, z: Option<nat>, max: nat, n: nat, text0: string) returns (text: string)
    requires n <= 8 && max >= 1
    ensures text == text0 + FromGroup(a, z, max, n, 0)
  {
    text := text0;
    var i := 0;
    while i < n
      invariant text + FromGroup(a, z, max, n, i) == text0 + FromGroup(a, z, max, n, 0)
      decreases n - i
    {
      if z == Some(i) {
        Append(text, ":", FromGroup(a, z, max, n, i + max));
        text := text + ":";
        i := i + (max - 1) + 1;
      } else {
        var group := Hex(Word(a, i));
        if i < 7 {
          group := group + ":";
        }
        Append(text, group, FromGroup(a, z, max, n, i + 1));
        text := text + group;
        i := i + 1;
      }
    }
  }

  lemma Append(a: string, b: string, c: string)
    ensures a + (b + c) == a + b + c
  {
  }

  /** Without a gap ahead the loop prints groups. */
  lemma {:induction false} PlainGroups(a: Addr, z: Option<nat>, max: nat, n: nat, i: nat, k: nat)
    requires n <= 8 && max >= 1 && i <= k <= n && (z.Some? ==> z.v < i || k <= z.v)
    ensures FromGroup(a, z, max, n, i) == GroupsText(a, i, k) + FromGroup(a, z, max, n, k)
    decreases k - i
  {
    if i < k {
      PlainGroups(a, z, max, n, i + 1, k);
      Append(Hex(Word(a, i)) + if i < 7 then ":" else "", GroupsText(a, i + 1, k), FromGroup(a, z, max, n, k));
    }
  }

  lemma {:induction false} LoopPrints(a: Addr, z: Option<nat>, max: nat, n: nat)
    requires n <= 8 && max >= 1
    ensures z.None? ==> FromGroup(a, z, max, n, 0) == GroupsText(a, 0, n)
    ensures z.Some? && z.v < n ==>
              FromGroup(a, z, max, n, 0)
              == GroupsText(a, 0, z.v) + (":" + GroupsText(a, z.v + max, n))
  {
    hide Hex;
    if z.None? {
      PlainGroups(a, z, max, n, 0, n);
      assert GroupsText(a, 0, n) + "" == GroupsText(a, 0, n);
    } else if z.v < n {
      PlainGroups(a, z, max, n, 0, z.v);
      if z.v + max <= n {
        PlainGroups(a, z, max, n, z.v + max, n);
        assert GroupsText(a, z.v + max, n) + "" == GroupsText(a, z.v + max, n);
      }
    }
  }

  // ---------------------------------------------------------------- parsing

  /** ngx_inet_addr: the value of four octets between three dots, each of digits, or of none, that
      say a number below 256; for other texts the error value. */
  method ParseInet(text: string) returns (r: nat)
    ensures r == InetAddr(text)
    ensures var fs := Fields(text, '.'); r == if Quad(fs) then QuadValue(fs) else INADDR_NONE
  {
    hide Fields, Quad, QuadValue;
    InetMeans(text);
    var addr: nat := 0;
    var octet: nat := 0;
    var n: nat := 0;
    var p := 0;
    while p < |text|
      invariant 0 <= p <= |text|
      invariant InetFrom(text, p, addr, octet, n) == InetAddr(text)
    {
      var c := text[p];
      if '0' <= c <= '9' {
        octet := octet * 10 + (c as int - '0' as int);
        if octet > 255 {
          return INADDR_NONE;
        }
      } else if c == '.' {
        addr := (addr * 256 + octet) % 0x1_0000_0000;
        octet := 0;
        n := n + 1;
      } else {
        return INADDR_NONE;
      }
      p := p + 1;
    }
    if n == 3 {
      return (addr * 256 + octet) % 0x1_0000_0000;
    }
    return INADDR_NONE;
  }

  /** The states that the loop of ngx_inet6_addr can be in: it has written two bytes for every group
      that is no longer missing. */
  predicate Reached(text: string, i: nat, st: State) {
    && 1 <= st.n <= 8 && |st.out| == 2 * (8 - st.n) && st.nibbles <= 4
    && (st.zero.Some? ==> st.zero.v <= |st.out|) && (st.digit.Some? ==> st.digit.v <= i) && i <= |text|
  }

  lemma StepReaches(text: string, i: nat, st: State)
    requires Reached(text, i, st) && i < |text|
    ensures Step(text, i, st).Go? ==> Reached(text, i + 1, Step(text, i, st).st)
  {
    hide InetAddr;
  }

  /** The bytes behind the gap move to the end, from the last to the first. */
  method MoveUp(addr: array<Byte>, zero: nat, last: nat, n: nat)
    requires addr.Length == 16 && zero <= last && last + n == 16
    modifies addr
    ensures forall k :: 0 <= k < zero ==> addr[k] == old(addr[k])
    ensures forall k :: zero <= k < last ==> addr[k + n] == old(addr[k])
  {
    var s := last - 1;
    var d := s + n;
    while s >= zero
      invariant zero - 1 <= s < last && d == s + n
      invariant forall k :: 0 <= k <= s ==> addr[k] == old(addr[k])
      invariant forall k :: s < k < last ==> addr[k + n] == old(addr[k])
    {
      addr[d] := addr[s];
      d := d - 1;
      s := s - 1;
    }
  }

  /** ngx_memzero */
  method Clear(addr: array<Byte>, zero: nat, n: nat)
    requires zero + n <= addr.Length
    modifies addr
    ensures forall k :: 0 <= k < addr.Length ==> addr[k] == if zero <= k < zero + n then 0 else old(addr[k])
  {
    var k := zero;
    while k < zero + n
      invariant zero <= k <= zero + n
      invariant forall j :: 0 <= j < addr.Length ==> addr[j] == if zero <= j < k then 0 else old(addr[j])
    {
      addr[k] := 0;
      k := k + 1;
    }
  }

  /** The last lines of ngx_inet6_addr: the gap is filled with zeros. */
  method Spread(addr: array<Byte>, zero: nat, last: nat, n: nat)
    requires addr.Length == 16 && zero <= last && last + n == 16
    modifies addr
    ensures addr[..] == old(addr[..zero]) + Zeros(n) + old(addr[zero..last])
  {
    MoveUp(addr, zero, last, n);
    ghost var moved := addr[..];
    Clear(addr, zero, n);
    ghost var was := old(addr[..]);
    forall j | zero <= j < last ensures addr[..][j + n] == was[j] {
      assert moved[j + n] == was[j];
    }
    SpreadBytes(addr[..], was, zero, last, n);
  }

  lemma {:induction false} SpreadBytes(x: seq<Byte>, y: seq<Byte>, zero: nat, last: nat, n: nat)
    requires |x| == |y| == 16 && zero <= last && last + n == 16
    requires forall j :: 0 <= j < zero ==> x[j] == y[j]
    requires forall j :: zero <= j < zero + n ==> x[j] == 0
    requires forall j :: zero <= j < last ==> x[j + n] == y[j]
    ensures x == y[..zero] + Zeros(n) + y[zero..last]
  {
    var z := y[..zero] + Zeros(n) + y[zero..last];
    forall j | 0 <= j < 16 ensures x[j] == z[j] {
      if j >= zero + n {
        assert x[(j - n) + n] == y[j - n];
      }
    }
  }

  /** Two bytes are written. */
  method Write(addr: array<Byte>, a: nat, x: Byte, y: Byte)
    requires a + 2 <= addr.Length
    modifies addr
    ensures addr[..a + 2] == old(addr[..a]) + [x, y]
  {
    addr[a] := x;
    addr[a + 1] := y;
  }

  /** What follows the loop of ngx_inet6_addr. */
  method Conclude(addr: array<Byte>, st: State) returns (ok: bool)
    requires addr.Length == 16 && Reached("", 0, st.(digit := None)) && addr[..|st.out|] == st.out
    modifies addr
    ensures ok == Finish(st).Some? && (ok ==> addr[..] == Finish(st).v)
  {
    if st.nibbles == 0 && st.zero.None? {
      return false;
    }
    var a := |st.out|;
    Write(addr, a, High(st.word), Low(st.word));
    ghost var out := addr[..a + 2];
    var n := st.n - 1;
    if n != 0 {
      if st.zero.Some? {
        Spread(addr, st.zero.v, a + 2, 2 * n);
        assert out == st.out + [High(st.word), Low(st.word)];
        return true;
      }
    } else if st.zero.None? {
      return true;
    }
    return false;
  }

  /** ngx_inet6_addr: it accepts exactly the texts whose fields between colons say an address, and
      gives the bytes of that address. */
  method ParseInet6(text: string, addr: array<Byte>) returns (ok: bool)
    requires addr.Length == 16
    modifies addr
    ensures ok == Inet6Addr(text).Some? && (ok ==> addr[..] == Inet6Addr(text).v)
    ensures ok <==> text != "" && Accepted(Fields(Body(text), ':'))
    ensures ok ==> addr[..] == Meaning(Fields(Body(text), ':'))
  {
    hide Finish, InetAddr, Fields, Accepted, Meaning;
    Inet6Means(text);
    if text == "" {
      return false;
    }
    var p := 0;
    if text[0] == ':' {
      p := 1;
    }
    var st := Start();
    while p < |text|
      invariant 0 <= p <= |text| && Reached(text, p, st) && addr[..|st.out|] == st.out
      invariant Run(text, p, st) == Inet6Addr(text)
    {
      StepReaches(text, p, st);
      var move := ReadChar(text, p, st, addr);
      match move {
        case Fail =>
          return false;
        case Last(st') =>
          ok := Conclude(addr, st');
          return;
        case Go(st') =>
          st := st';
      }
      p := p + 1;
    }
    ok := Conclude(addr, st);
  }

  /** One character of the text. */
  method ReadChar(text: string, p: nat, st: State, addr: array<Byte>) returns (move: Move)
    requires p < |text| && Reached(text, p, st) && addr.Length == 16 && addr[..|st.out|] == st.out
    modifies addr
    ensures move == Step(text, p, st)
    ensures move.Go? ==> addr[..|move.st.out|] == move.st.out
    ensures move.Last? ==> Reached(text, p, move.st) && addr[..|move.st.out|] == move.st.out
  {
    hide InetAddr;
    var c := text[p];
    var a := |st.out|;
    if c == ':' {
      if st.nibbles != 0 {
        if st.n == 1 {
          return Fail;
        }
        Write(addr, a, High(st.word), Low(st.word));
        return Go(State(st.out + [High(st.word), Low(st.word)], st.zero, Some(p + 1), 0, 0, st.n - 1));
      }
      if st.zero.None? {
        return Go(st.(zero := Some(a), digit := Some(p + 1)));
      }
      return Fail;
    }
    if c == '.' && st.nibbles != 0 {
      if st.n < 2 || st.digit.None? {
        return Fail;
      }
      var w := ParseInet(text[st.digit.v..]);
      if w == INADDR_NONE {
        return Fail;
      }
      Write(addr, a, High(w / 0x1_0000), Low(w / 0x1_0000));
      return Last(st.(out := st.out + [High(w / 0x1_0000), Low(w / 0x1_0000)], word := w, n := st.n - 1));
    }
    if st.nibbles + 1 > 4 {
      return Fail;
    }
    if HexValue(c).None? {
      return Fail;
    }
    return Go(st.(nibbles := st.nibbles + 1, word := st.word * 16 + HexValue(c).v));
  }
}
