/** Names, their labels, and wildcard patterns over them, as ngx_hash.c and the server name
    code that calls it see them. */
module WildcardNames {

  // ---------------------------------------------------------------- splitting at dots

  ghost predicate NoDot(s: string, lo: nat, hi: nat) {
    forall k :: lo <= k < hi && k < |s| ==> s[k] != '.'
  }

  /** The place of the first dot, or the length if there is none. */
  function DotAt(s: string): (n: nat)
    ensures n <= |s| && NoDot(s, 0, n) && (n < |s| ==> s[n] == '.')
  {
    if s == "" || s[0] == '.' then 0 else DotAt(s[1..]) + 1
  }

  predicate Dotted(s: string) { DotAt(s) < |s| }

  function Head(s: string): string { s[..DotAt(s)] }

  function Tail(s: string): string
    requires Dotted(s)
  {
    s[DotAt(s) + 1..]
  }

  /** The labels of the key of a pattern; a dot at its end adds none. */
  function Labels(key: string): seq<string>
    decreases |key|
  {
    if key == "" then [] else if Dotted(key) then [Head(key)] + Labels(Tail(key)) else [key]
  }

  /** A dot at the end: the pattern does not match the name that it is made of. */
  predicate Strict(key: string) { key != "" && key[|key| - 1] == '.' }

  /** The place behind the last dot. */
  function LastStart(s: string): (n: nat)
    ensures n <= |s| && NoDot(s, n, |s|) && (n > 0 ==> s[n - 1] == '.')
  {
    if s == "" || s[|s| - 1] == '.' then |s| else LastStart(s[..|s| - 1])
  }

  /** The labels of a name, the last one first. */
  function Reversed(name: string): (q: seq<string>)
    ensures q != []
    decreases |name|
  {
    var n := LastStart(name);
    [name[n..]] + if n == 0 then [] else Reversed(name[..n - 1])
  }

  /** The labels of a name, the first one first. */
  function Split(name: string): (q: seq<string>)
    ensures q != []
    decreases |name|
  {
    if Dotted(name) then [Head(name)] + Split(Tail(name)) else [name]
  }

  // ---------------------------------------------------------------- what patterns match

  /** The name is x, or ends in a dot and x. */
  ghost predicate Within(name: string, x: string) {
    name == x || Below(name, x)
  }

  ghost predicate Below(name: string, x: string) {
    exists y :: name == y + "." + x
  }

  lemma {:induction false} LastStartAppend(y: string, x: string)
    requires Strict(y)
    ensures LastStart(y + x) == |y| + LastStart(x)
  {
    if x == "" {
      assert y + x == y;
    } else if x[|x| - 1] != '.' {
      LastStartAppend(y, x[..|x| - 1]);
      assert (y + x)[..|y + x| - 1] == y + x[..|x| - 1];
    }
  }

  /** A name is its last label, if it is not all of it behind a dot and the rest. */
  lemma {:induction false} LastLabel(s: string)
    ensures var n := LastStart(s);
            if n == 0 then Reversed(s) == [s]
            else s == s[..n - 1] + "." + s[n..] && Reversed(s) == [s[n..]] + Reversed(s[..n - 1])
  {
    var n := LastStart(s);
    if n == 0 {
      assert s[0..] == s;
    } else {
      Rejoin(s, n);
    }
  }

  lemma Rejoin(s: string, n: nat)
    requires 0 < n <= |s| && s[n - 1] == '.'
    ensures s == s[..n - 1] + "." + s[n..]
  {
  }

  lemma {:induction false} ReversedStep(r: string, l: string)
    requires NoDot(l, 0, |l|)
    ensures Reversed(r + "." + l) == [l] + Reversed(r)
  {
    hide LastStart;
    LastStartAppend(r + ".", l);
    NoDotStart(l);
    var s := r + "." + l;
    assert s == (r + ".") + l;
    assert s[..|r|] == r && s[|r| + 1..] == l;
  }

  lemma {:induction false} NoDotStart(l: string)
    requires NoDot(l, 0, |l|)
    ensures LastStart(l) == 0
  {
  }

  lemma {:induction false} ReversedAppend(y: string, x: string)
    ensures Reversed(y + "." + x) == Reversed(x) + Reversed(y)
    decreases |x|
  {
    hide Reversed;
    hide LastStart;
    LastLabel(x);
    var n := LastStart(x);
    if n == 0 {
      ReversedStep(y, x);
    } else {
      var r, l := x[..n - 1], x[n..];
      ReversedAppend(y, r);
      ReversedStep(y + "." + r, l);
      assert y + "." + x == (y + "." + r) + "." + l;
      assert [l] + (Reversed(r) + Reversed(y)) == ([l] + Reversed(r)) + Reversed(y);
    }
  }

  lemma {:induction false} PrefixIsSuffix(x: string, name: string) returns (y: string)
    requires Reversed(x) <= Reversed(name)
    ensures name == x || name == y + "." + x
    decreases |x|
  {
    hide Reversed;
    hide LastStart;
    LastLabel(x);
    LastLabel(name);
    assert Reversed(x)[0] == Reversed(name)[0];
    var n, m := LastStart(x), LastStart(name);
    if n == 0 {
      y := if m == 0 then "" else name[..m - 1];
    } else {
      var r, l := x[..n - 1], x[n..];
      assert |Reversed(x)| > 1 && |Reversed(name)| > 1;
      var r', l' := name[..m - 1], name[m..];
      assert Reversed(x)[1..] == Reversed(r) && Reversed(name)[1..] == Reversed(r');
      y := PrefixIsSuffix(r, r');
      assert y + "." + (r + "." + l) == (y + "." + r) + "." + l;
    }
  }

  /** On reversed labels "ends with" is "starts with": the labels of x begin those of exactly the
      names that are x or end in a dot and x, and in the second case there are more of them. */
  lemma {:induction false} SuffixIsPrefix(x: string, name: string)
    ensures Reversed(x) <= Reversed(name) <==> Within(name, x)
    ensures Reversed(x) < Reversed(name) <==> Below(name, x)
  {
    if Reversed(x) <= Reversed(name) {
      var y := PrefixIsSuffix(x, name);
      if name != x {
        assert Below(name, x);
      }
    }
    if Below(name, x) {
      var y :| name == y + "." + x;
      ReversedAppend(y, x);
    }
  }

  // ---------------------------------------------------------------- the order of keys

  /** How ngx_dns_strcmp ranks a character: the dot below all others. */
  function Rank(c: char): int { if c == '.' then ' ' as int else c as int }

  /** ngx_dns_strcmp(a, b) < 0, for keys in lower case. */
  predicate DnsLess(a: string, b: string) {
    if b == "" then false
    else if a == "" then true
    else if a[0] != b[0] then Rank(a[0]) < Rank(b[0])
    else DnsLess(a[1..], b[1..])
  }

  /** Printable characters only, so that the dot is really the lowest. */
  predicate Printable(s: string) {
    forall k :: 0 <= k < |s| ==> s[k] > ' '
  }

  /** In the order of keys those with the same first label stand together. */
  lemma {:induction false} HeadsStandTogether(a: string, b: string, c: string)
    requires Printable(a) && Printable(b) && Printable(c)
    requires DnsLess(a, b) && DnsLess(b, c) && Head(a) == Head(c)
    ensures Head(b) == Head(a)
    decreases |a|
  {
    if a != "" && a[0] != '.' {
      assert Head(a)[0] == a[0] && c[0] == Head(c)[0];
      assert b[0] == a[0];
      assert Head(a)[1..] == Head(a[1..]) && Head(c)[1..] == Head(c[1..]);
      HeadsStandTogether(a[1..], b[1..], c[1..]);
      assert Head(b) == [b[0]] + Head(b[1..]);
    } else {
      assert Head(a) == "";
      assert c[0] == '.';
    }
  }

  /** ... and are ordered by the rest. */
  lemma {:induction false} TailsOrdered(a: string, b: string)
    requires Dotted(a) && Dotted(b) && Head(a) == Head(b) && DnsLess(a, b)
    ensures DnsLess(Tail(a), Tail(b))
    decreases |a|
  {
    if a[0] != '.' {
      assert Head(a)[0] == a[0] && Head(b)[0] == b[0];
      assert Head(a)[1..] == Head(a[1..]) && Head(b)[1..] == Head(b[1..]);
      TailsOrdered(a[1..], b[1..]);
      assert Tail(a) == Tail(a[1..]) && Tail(b) == Tail(b[1..]);
    } else {
      assert Head(a) == "";
      assert b[0] == '.';
    }
  }

  /** ... with the one that is nothing but that label first. */
  lemma {:induction false} BareLabelFirst(a: string, b: string)
    requires Head(a) == Head(b) && !Dotted(b)
    ensures !DnsLess(a, b)
    decreases |a|
  {
    assert Head(b) == b;
    if b != "" {
      assert Head(a)[0] == a[0] && a[0] != '.';
      assert Head(a)[1..] == Head(a[1..]) && Head(b)[1..] == Head(b[1..]);
      BareLabelFirst(a[1..], b[1..]);
    }
  }
}
