/** IPv6 addresses and their text, as ngx_inet.c prints and parses them. */
module Inet6Text {

  type Byte = b: int | 0 <= b < 256

  /** The 16 bytes of an address. */
  type Addr = a: seq<Byte> | |a| == 16 witness seq(16, _ => 0)

  const INADDR_NONE: nat := 0xffff_ffff

  // ---------------------------------------------------------------- numbers in text

  function HexDigit(n: nat): char
    requires n < 16
  {
    if n < 10 then '0' + n as char else 'a' + (n - 10) as char
  }

  /** The format "%uxi": no leading zeros. */
  function Hex(w: nat): (s: string)
    requires w < 0x1_0000
    ensures 1 <= |s| <= 4
  {
    if w < 16 then [HexDigit(w)]
    else if w < 256 then [HexDigit(w / 16), HexDigit(w % 16)]
    else if w < 4096 then [HexDigit(w / 256), HexDigit(w / 16 % 16), HexDigit(w % 16)]
    else [HexDigit(w / 4096), HexDigit(w / 256 % 16), HexDigit(w / 16 % 16), HexDigit(w % 16)]
  }

  /** The format "%ud" for a byte. */
  function Dec(b: Byte): (s: string)
    ensures 1 <= |s| <= 3
  {
    if b < 10 then ['0' + b as char]
    else if b < 100 then ['0' + (b / 10) as char, '0' + (b % 10) as char]
    else ['0' + (b / 100) as char, '0' + (b / 10 % 10) as char, '0' + (b % 10) as char]
  }

  // ---------------------------------------------------------------- ngx_inet_addr

  /** The loop of ngx_inet_addr from character i on. */
  function InetFrom(text: string, i: nat, addr: nat, octet: nat, n: nat): nat
    decreases |text| - i
  {
    if i >= |text| then
      if n == 3 then (addr * 256 + octet) % 0x1_0000_0000 else INADDR_NONE
    else
      var c := text[i];
      if '0' <= c <= '9' then
        var o := octet * 10 + (c as int - '0' as int);
        if o > 255 then INADDR_NONE else InetFrom(text, i + 1, addr, o, n)
      else if c == '.' then InetFrom(text, i + 1, (addr * 256 + octet) % 0x1_0000_0000, 0, n + 1)
      else INADDR_NONE
  }

  function InetAddr(text: string): nat { InetFrom(text, 0, 0, 0, 0) }

  // ---------------------------------------------------------------- ngx_inet6_addr

  datatype Option<+T> = None | Some(v: T)

  /** Its variables: the bytes written, where the gap is, where the digits of the current group
      begin, how many there are and what they say, and how many groups are missing. */
  datatype State = State(out: seq<Byte>, zero: Option<nat>, digit: Option<nat>, nibbles: nat, word: nat, n: nat)

  datatype Move = Fail | Go(st: State) | Last(st: State)

  function HexValue(c: char): Option<nat> {
    if '0' <= c <= '9' then Some(c as int - '0' as int)
    else if 'a' <= c <= 'f' then Some(c as int - 'a' as int + 10)
    else if 'A' <= c <= 'F' then Some(c as int - 'A' as int + 10)
    else None
  }

  function High(w: nat): Byte { w / 256 % 256 }

  function Low(w: nat): Byte { w % 256 }

  function Step(text: string, i: nat, st: State): Move
    requires i < |text|
  {
    var c := text[i];
    if c == ':' then
      if st.nibbles > 0 then
        if st.n <= 1 then Fail
        else Go(State(st.out + [High(st.word), Low(st.word)], st.zero, Some(i + 1), 0, 0, st.n - 1))
      else if st.zero.None? then Go(st.(zero := Some(|st.out|), digit := Some(i + 1)))
      else Fail
    else if c == '.' && st.nibbles > 0 then
      if st.n < 2 || st.digit.None? || st.digit.v > |text| then Fail
      else
        var w := InetAddr(text[st.digit.v..]);
        if w == INADDR_NONE then Fail
        else Last(st.(out := st.out + [High(w / 0x1_0000), Low(w / 0x1_0000)], word := w, n := st.n - 1))
    else if st.nibbles >= 4 || HexValue(c).None? then Fail
    else Go(st.(nibbles := st.nibbles + 1, word := st.word * 16 + HexValue(c).v))
  }

  function Zeros(n: nat): (z: seq<Byte>)
    ensures |z| == n && forall k :: 0 <= k < n ==> z[k] == 0
  {
    if n == 0 then [] else [0] + Zeros(n - 1)
  }

  /** After the last character. */
  function Finish(st: State): Option<seq<Byte>> {
    if st.nibbles == 0 && st.zero.None? then None
    else
      var out := st.out + [High(st.word), Low(st.word)];
      if st.n > 1 then
        if st.zero.Some? && st.zero.v <= |out| then
          Some(out[..st.zero.v] + Zeros(2 * (st.n - 1)) + out[st.zero.v..])
        else None
      else if st.zero.None? then Some(out) else None
  }

  function Run(text: string, i: nat, st: State): Option<seq<Byte>>
    decreases |text| - i
  {
    if i >= |text| then Finish(st)
    else
      match Step(text, i, st)
      case Fail => None
      case Last(st') => Finish(st')
      case Go(st') => Run(text, i + 1, st')
  }

  function Start(): State { State([], None, None, 0, 0, 8) }

  function Inet6Addr(text: string): Option<seq<Byte>> {
    if text == "" then None else Run(text, if text[0] == ':' then 1 else 0, Start())
  }

  // ---------------------------------------------------------------- ngx_inet6_ntop

  function Word(a: Addr, g: nat): nat
    requires g < 8
  {
    a[2 * g] as int * 256 + a[2 * g + 1] as int
  }

  /** The groups from y on, as many as `len`, are zero. */
  predicate ZeroRun(a: Addr, y: int, len: int) {
    0 <= y && 0 <= len && y + len <= 8 && forall g :: y <= g < y + len ==> Word(a, g) == 0
  }

  /** z and max are the first of the longest runs of zero groups, if one is longer than one group. */
  ghost predicate BestRun(a: Addr, z: Option<nat>, max: nat) {
    match z
    case None => max == 1 && forall y, len :: ZeroRun(a, y, len) ==> len <= 1
    case Some(z) =>
      max >= 2 && ZeroRun(a, z, max)
      && forall y, len :: ZeroRun(a, y, len) ==> len < max || (len == max && z <= y)
  }

  /** Whether the last four bytes are printed as an IPv4 address. */
  predicate DottedTail(a: Addr, z: Option<nat>, max: nat) {
    z == Some(0) &&
    ((max == 5 && a[10] == 0xff && a[11] == 0xff) || max == 6 || (max == 7 && a[14] != 0 && a[15] != 1))
  }

  /** The groups from g up to k, with a colon behind each but the eighth. */
  function GroupsText(a: Addr, g: nat, k: nat): string
    requires k <= 8
    decreases k - g
  {
    if g >= k then "" else Hex(Word(a, g)) + (if g < 7 then ":" else "") + GroupsText(a, g + 1, k)
  }

  function DottedText(a: Addr): string {
    Dec(a[12]) + "." + Dec(a[13]) + "." + Dec(a[14]) + "." + Dec(a[15])
  }

  /** What ngx_inet6_ntop prints. */
  function Text(a: Addr, z: Option<nat>, max: nat): string
    requires z.Some? ==> z.v <= 8
  {
    if z.None? then GroupsText(a, 0, 8)
    else
      (if z.v == 0 then ":" else "") + GroupsText(a, 0, z.v) + ":"
      + if DottedTail(a, z, max) then GroupsText(a, max, 6) + DottedText(a) else GroupsText(a, z.v + max, 8)
  }
}
