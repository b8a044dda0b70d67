/** The builder of the wildcard hash, and the searches of ngx_hash.c. */
module WildcardInit {
  import opened WildcardNames
  import opened WildcardHash

  // ---------------------------------------------------------------- sorted names in groups

  /** The comparison by characters that ends a group of names. */
  predicate JoinsGroup(a: string, b: string) {
    var len := if Dotted(a) then DotAt(a) + 1 else |a|;
    a[..len] <= b && (Dotted(a) || |b| <= len || b[len] == '.')
  }

  lemma {:induction false} NotLessThanItself(a: string)
    ensures !DnsLess(a, a)
  {
    if a != "" {
      NotLessThanItself(a[1..]);
    }
  }

  lemma {:induction false} HeadAndDot(s: string)
    requires Dotted(s)
    ensures s[..DotAt(s) + 1] == Head(s) + "."
  {
  }

  lemma {:induction false} SameHeadJoins(a: string, b: string)
    requires WellFormed(a) && WellFormed(b) && DnsLess(a, b) && Labels(a) != Labels(b)
    requires Head(a) == Head(b)
    ensures Dotted(b) && !Bare(b) && Tail(b) == b[DotAt(a) + 1..] && JoinsGroup(a, b)
  {
    if !Dotted(b) {
      BareLabelFirst(a, b);
      assert false;
    }
    assert DotAt(a) == |Head(a)| == DotAt(b);
    if Tail(b) == "" {
      if Dotted(a) {
        TailsOrdered(a, b);
      } else {
        HeadOfLabels(a);
        HeadOfLabels(b);
      }
      assert false;
    }
    if Dotted(a) {
      HeadAndDot(a);
      HeadAndDot(b);
    } else {
      assert a == Head(a);
    }
  }

  lemma {:induction false} JoinsMeansSameHead(a: string, b: string)
    requires DnsLess(a, b) && JoinsGroup(a, b)
    ensures Head(a) == Head(b)
  {
    var n := DotAt(a);
    assert forall k :: 0 <= k < n ==> b[k] == a[k];
    if Dotted(a) {
      assert a[..n + 1][n] == '.';
      assert b[n] == '.';
    } else if |b| <= n {
      assert a[..n] == a;
      assert b == a;
      NotLessThanItself(a);
      assert false;
    }
    assert DotAt(b) == n;
  }

  /** The first name that does not join the group ends it: none joins it later. */
  lemma GroupEnds(names: seq<Name>, n: nat, i: nat, j: nat)
    requires Ready(names) && n < i <= j < |names| && Head(names[i].key) != Head(names[n].key)
    ensures Head(names[j].key) != Head(names[n].key)
  {
    if i < j && Head(names[j].key) == Head(names[n].key) {
      HeadsStandTogether(names[n].key, names[i].key, names[j].key);
    }
  }

  /** What is left of the names of a group is ready for the next level. */
  lemma {:induction false} RestReady(names: seq<Name>, n: nat, i: nat, h: string)
    requires Ready(names) && IsGroup(names, n, i, h)
    ensures Ready(Rest(names, GoingOn(names, n), i))
  {
    hide DnsLess, WellFormed, Labels;
    var lo := GoingOn(names, n);
    var rest := Rest(names, lo, i);
    forall k | 0 <= k < |rest| ensures WellFormed(rest[k].key) {
      HeadOfLabels(names[lo + k].key);
    }
    forall k, l | 0 <= k < l < |rest|
      ensures DnsLess(rest[k].key, rest[l].key) && Labels(rest[k].key) != Labels(rest[l].key)
    {
      TailsReady(names[lo + k].key, names[lo + l].key);
    }
  }

  lemma {:induction false} TailsReady(a: string, b: string)
    requires WellFormed(a) && WellFormed(b) && !Bare(a) && !Bare(b) && Head(a) == Head(b)
    requires DnsLess(a, b) && Labels(a) != Labels(b)
    ensures DnsLess(Tail(a), Tail(b)) && Labels(Tail(a)) != Labels(Tail(b))
  {
    HeadOfLabels(a);
    HeadOfLabels(b);
    TailsOrdered(a, b);
  }

  function Total(names: seq<Name>): nat {
    if names == [] then 0 else Total(names[..|names| - 1]) + |names[|names| - 1].key|
  }

  lemma {:induction false} TotalPush(names: seq<Name>, x: Name)
    ensures Total(names + [x]) == Total(names) + |x.key|
  {
    assert (names + [x])[..|names|] == names;
  }

  lemma {:induction false} TotalAppend(a: seq<Name>, b: seq<Name>)
    ensures Total(a + b) == Total(a) + Total(b)
  {
    if b == [] {
      assert a + b == a;
    } else {
      var b', x := b[..|b| - 1], b[|b| - 1];
      assert b == b' + [x] && a + b == (a + b') + [x];
      TotalAppend(a, b');
      TotalPush(a + b', x);
      TotalPush(b', x);
    }
  }

  lemma {:induction false} TotalSlice(names: seq<Name>, lo: nat, hi: nat)
    requires lo <= hi <= |names|
    ensures Total(names[lo..hi]) <= Total(names)
  {
    hide Total;
    assert names == names[..lo] + names[lo..hi] + names[hi..];
    TotalAppend(names[..lo] + names[lo..hi], names[hi..]);
    TotalAppend(names[..lo], names[lo..hi]);
  }

  /** Every name that goes on gets shorter. */
  lemma {:induction false} TotalRest(names: seq<Name>, lo: nat, hi: nat)
    requires lo <= hi <= |names|
    requires forall j {:trigger names[j]} :: lo <= j < hi ==> Dotted(names[j].key)
    ensures Total(Rest(names, lo, hi)) + hi - lo <= Total(names[lo..hi])
    decreases hi
  {
    hide Total, DotAt;
    if lo < hi {
      TotalRest(names, lo, hi - 1);
      var x := names[hi - 1];
      assert names[lo..hi] == names[lo..hi - 1] + [x];
      TotalPush(names[lo..hi - 1], x);
      TotalPush(Rest(names, lo, hi - 1), Name(Tail(x.key), x.value));
    } else {
      TotalPush([], Name("", 0));
      assert Rest(names, lo, hi) == [] && names[lo..hi] == [];
    }
  }

  // ---------------------------------------------------------------- ngx_hash_wildcard_init

  /** The scan for the first dot of a key. */
  method ScanLabel(key: string) returns (len: nat, dot: bool)
    ensures len == DotAt(key) && dot == Dotted(key)
  {
    len, dot := 0, false;
    while len < |key|
      invariant len <= |key| && NoDot(key, 0, len)
    {
      if key[len] == '.' {
        dot := true;
        break;
      }
      len := len + 1;
    }
  }

  /** One group of names with the same first label: where it ends, and what is left of its names
      for the next level. */
  method TakeGroup(names: seq<Name>, n: nat) returns (i: nat, head: string, dot: bool, next: seq<Name>)
    requires Ready(names) && n < |names|
    requires forall j :: 0 <= j < n ==> Head(names[j].key) != Head(names[n].key)
    ensures head == Head(names[n].key) && dot == Dotted(names[n].key)
    ensures IsGroup(names, n, i, head) && next == Rest(names, GoingOn(names, n), i)
  {
    hide DnsLess, WellFormed, Labels, DotAt;
    var key := names[n].key;
    var len;
    len, dot := ScanLabel(key);
    head := key[..len];
    var dotLen := len + 1;
    if dot {
      len := len + 1;
    }
    next := [];
    if |key| != len {
      next := [Name(key[len..], names[n].value)];
    }
    i := n + 1;
    while i < |names|
      invariant n < i <= |names|
      invariant forall j {:trigger names[j]} :: n < j < i ==> Head(names[j].key) == head && Dotted(names[j].key) && !Bare(names[j].key)
      invariant next == Rest(names, GoingOn(names, n), i)
    {
      var other := names[i].key;
      if !(key[..len] <= other) || (!dot && |other| > len && other[len] != '.') {
        break;
      }
      JoinsMeansSameHead(key, other);
      SameHeadJoins(key, other);
      next := next + [Name(other[dotLen..], names[i].value)];
      i := i + 1;
    }
    if i < |names| {
      NotJoining(names, n, i);
    }
  }

  lemma NotJoining(names: seq<Name>, n: nat, i: nat)
    requires Ready(names) && n < i < |names| && !JoinsGroup(names[n].key, names[i].key)
    ensures forall j :: i <= j < |names| ==> Head(names[j].key) != Head(names[n].key)
  {
    if Head(names[i].key) == Head(names[n].key) {
      SameHeadJoins(names[n].key, names[i].key);
    }
    forall j | i <= j < |names| ensures Head(names[j].key) != Head(names[n].key) {
      GroupEnds(names, n, i, j);
    }
  }

  /** Every name whose first label has an entry gets the best answer. */
  ghost predicate EntriesServe(tail: bool, entries: map<string, Entry>, names: seq<Name>) {
    forall q: seq<string> :: q != [] && q[0] in entries ==> IsBest(tail, names, q, FindEntry(tail, entries[q[0]], q))
  }

  lemma {:induction false} AddEntry(tail: bool, entries: map<string, Entry>, names: seq<Name>, n: nat, i: nat, h: string, e: Entry, sub: Table)
    requires EntriesServe(tail, entries, names)
    requires IsGroup(names, n, i, h) && EntryFor(e, names, n, i, sub)
    requires GoingOn(names, n) < i ==> Serves(tail, sub, Rest(names, GoingOn(names, n), i))
    requires tail ==> Plain(names)
    ensures EntriesServe(tail, entries[h := e], names)
  {
    hide IsBest, FindEntry, EntryFor, Rest, GoingOn, Serves;
    forall q: seq<string> | q != [] && q[0] in entries[h := e]
      ensures IsBest(tail, names, q, FindEntry(tail, entries[h := e][q[0]], q))
    {
      if q[0] == h {
        GroupServes(tail, names, n, i, h, e, sub, q);
      }
    }
  }

  lemma AllServed(tail: bool, entries: map<string, Entry>, names: seq<Name>)
    requires Ready(names) && EntriesServe(tail, entries, names)
    requires forall j :: 0 <= j < |names| ==> Head(names[j].key) in entries
    ensures Serves(tail, Table(None, entries), names)
  {
    hide FindEntry, DnsLess, WellFormed, Labels;
    var t := Table(None, entries);
    forall q: seq<string> | q != [] ensures IsBest(tail, names, q, Find(tail, t, q)) {
      if q[0] !in entries || (tail && |q| == 1) {
        NothingSuits(tail, entries, names, q);
      }
    }
  }

  lemma NothingSuits(tail: bool, entries: map<string, Entry>, names: seq<Name>, q: seq<string>)
    requires Ready(names) && q != [] && (q[0] !in entries || (tail && |q| == 1))
    requires forall j :: 0 <= j < |names| ==> Head(names[j].key) in entries
    ensures forall j :: 0 <= j < |names| ==> !Suits(tail, names[j].key, q)
  {
    forall j | 0 <= j < |names| ensures !Suits(tail, names[j].key, q) {
      HeadOfLabels(names[j].key);
    }
  }

  lemma {:induction false} NextIsSmaller(names: seq<Name>, n: nat, i: nat, h: string)
    requires IsGroup(names, n, i, h) && GoingOn(names, n) < i
    ensures Total(Rest(names, GoingOn(names, n), i)) < Total(names)
  {
    TotalRest(names, GoingOn(names, n), i);
    TotalSlice(names, GoingOn(names, n), i);
  }

  /** The entry that ngx_hash_wildcard_init makes of a group, with the table of its next level. */
  method MakeEntry(names: seq<Name>, n: nat) returns (i: nat, head: string, e: Entry, ghost sub: Table)
    requires Ready(names) && n < |names|
    requires forall j :: 0 <= j < n ==> Head(names[j].key) != Head(names[n].key)
    ensures head == Head(names[n].key) && IsGroup(names, n, i, head) && EntryFor(e, names, n, i, sub)
    ensures GoingOn(names, n) < i ==>
              && Serves(false, sub, Rest(names, GoingOn(names, n), i))
              && (Plain(names) ==> Serves(true, sub, Rest(names, GoingOn(names, n), i)))
    decreases Total(names), 0
  {
    hide DnsLess, WellFormed, Labels, DotAt, Total, Serves, Ready, Plain;
    var dot, next;
    i, head, dot, next := TakeGroup(names, n);
    if next != [] {
      RestReady(names, n, i, head);
      NextIsSmaller(names, n, i, head);
      if Plain(names) {
        RestPlain(names, n, i, head);
      }
      var wdc := Init(next);
      sub := wdc;
      KeyLength(names[n].key);
      assert wdc.value == None by {
        assert Serves(false, wdc, next);
        ServesHasNoValue(wdc, next);
      }
      if |names[n].key| == |head| + (if dot then 1 else 0) {
        wdc := wdc.(value := Some(names[n].value));
      }
      e := Hash(wdc, dot);
    } else {
      sub := Table(None, map[]);
      e := Data(names[n].value, dot);
    }
  }

  lemma ServesHasNoValue(t: Table, names: seq<Name>)
    requires Serves(false, t, names)
    ensures t.value == None
  {
  }

  lemma KeyLength(key: string)
    ensures Bare(key) <==> |key| == |Head(key)| + if Dotted(key) then 1 else 0
  {
  }

  /** ngx_hash_wildcard_init: for every name, the table gives the value of the matching pattern with
      the most labels, searched from the end, or for keys without a dot at the end from the
      beginning. */
  method Init(names: seq<Name>) returns (t: Table)
    requires Ready(names)
    ensures Serves(false, t, names) && (Plain(names) ==> Serves(true, t, names))
    decreases Total(names), 1
  {
    hide Plain, DnsLess, WellFormed, Labels, DotAt, Total, Serves, EntryFor, EntriesServe, GoingOn, Rest;
    var entries: map<string, Entry> := map[];
    var n := 0;
    NoEntries(false, names);
    NoEntries(true, names);
    while n < |names|
      invariant n <= |names|
      invariant forall j :: 0 <= j < n ==> Head(names[j].key) in entries
      invariant forall j :: n <= j < |names| ==> Head(names[j].key) !in entries
      invariant EntriesServe(false, entries, names) && (Plain(names) ==> EntriesServe(true, entries, names))
    {
      var i, head, e;
      ghost var sub;
      i, head, e, sub := MakeEntry(names, n);
      AddEntry(false, entries, names, n, i, head, e, sub);
      if Plain(names) {
        AddEntry(true, entries, names, n, i, head, e, sub);
      }
      entries := entries[head := e];
      n := i;
    }
    t := Table(None, entries);
    AllServed(false, entries, names);
    if Plain(names) {
      AllServed(true, entries, names);
    }
  }

  lemma NoEntries(tail: bool, names: seq<Name>)
    ensures EntriesServe(tail, map[], names)
  {
  }

  // ---------------------------------------------------------------- the searches

  /** ngx_hash_find_wc_head: the last label first. */
  method FindWcHead(hwc: Table, name: string) returns (r: Option)
    ensures r == Find(false, hwc, Reversed(name))
    decreases |name|
  {
    hide Reversed;
    var n := |name|;
    while n != 0
      invariant 0 <= n <= |name| && NoDot(name, n, |name|)
    {
      if name[n - 1] == '.' {
        break;
      }
      n := n - 1;
    }
    LastLabel(name);
    ghost var q := Reversed(name);
    assert q[0] == name[n..] && (n == 0 <==> |q| == 1);
    assert n > 0 ==> q[1..] == Reversed(name[..n - 1]);
    if name[n..] in hwc.entries {
      match hwc.entries[name[n..]] {
        case Hash(t, strict) =>
          if n == 0 {
            if strict {
              return None;
            }
            return t.value;
          }
          r := FindWcHead(t, name[..n - 1]);
          if r.None? {
            r := t.value;
          }
        case Data(v, strict) =>
          if strict && n == 0 {
            return None;
          }
          return Some(v);
      }
    } else {
      r := hwc.value;
    }
  }

  /** ngx_hash_find_wc_tail: the first label first. */
  method FindWcTail(hwc: Table, name: string) returns (r: Option)
    ensures r == Find(true, hwc, Split(name))
    decreases |name|
  {
    var i, dot := ScanLabel(name);
    if i == |name| {
      return None;
    }
    if name[..i] in hwc.entries {
      match hwc.entries[name[..i]] {
        case Hash(t, _) =>
          r := FindWcTail(t, name[i + 1..]);
          if r.None? {
            r := t.value;
          }
        case Data(v, strict) =>
          return Some(if strict then v + 1 else v);
      }
    } else {
      r := hwc.value;
    }
  }

  /** ngx_hash_find_combined: the exact name, else the longest "*.x" or ".x", else the longest
      "x.*".  The name is not empty when wildcards are looked at. */
  method FindCombined(exact: map<string, nat>, head: Table, tail: Table, name: string,
                      ghost heads: seq<Name>, ghost tails: seq<Name>)
    returns (r: Option)
    requires Serves(false, head, heads) && Serves(true, tail, tails)
    ensures name in exact ==> r == Some(exact[name])
    ensures name !in exact && name == "" ==> r == None
    ensures name !in exact && name != "" ==>
              || (r.Some? && IsBest(false, heads, Reversed(name), r))
              || (IsBest(false, heads, Reversed(name), None) && IsBest(true, tails, Split(name), r))
  {
    hide IsBest, Find;
    if name in exact {
      return Some(exact[name]);
    }
    if name == "" {
      return None;
    }
    r := FindWcHead(head, name);
    if r.Some? {
      return;
    }
    r := FindWcTail(tail, name);
  }

  // ---------------------------------------------------------------- from patterns to keys

  /** The labels, each with a dot behind it. */
  function Flat(q: seq<string>): string {
    if q == [] then "" else Flat(q[..|q| - 1]) + q[|q| - 1] + "."
  }

  /** The key of ".x", or with `strict` of "*.x": the labels of x from the last to the first. */
  function KeyOf(x: string, strict: bool): string {
    var q := Reversed(x);
    if strict then Flat(q) else Flat(q[..|q| - 1]) + q[|q| - 1]
  }

  /** The labels in `done` are off the end of x; the characters from m, `len` many, are the last
      of what is left, and no dot is among them. */
  ghost predicate Turning(x: string, done: seq<string>, m: int, len: int) {
    0 <= m && 0 <= len && m + len <= |x|
    && Reversed(x) == done + Reversed(x[..m + len]) && NoDot(x, m, m + len)
  }

  lemma TurnStart(x: string)
    ensures Turning(x, [], |x|, 0)
  {
    assert x[..|x|] == x;
  }

  lemma TurnDot(x: string, done: seq<string>, m: int, len: int)
    requires Turning(x, done, m, len) && m > 0 && x[m - 1] == '.'
    ensures Turning(x, done + [x[m..m + len]], m - 1, 0)
  {
    hide Reversed;
    var r, l := x[..m - 1], x[m..m + len];
    ReversedStep(r, l);
    assert x[..m + len] == r + "." + l;
    assert done + ([l] + Reversed(r)) == (done + [l]) + Reversed(r);
  }

  lemma TurnChar(x: string, done: seq<string>, m: int, len: int)
    requires Turning(x, done, m, len) && m > 0 && x[m - 1] != '.'
    ensures Turning(x, done, m - 1, len + 1)
  {
  }

  lemma {:induction false} TurnEnd(x: string, done: seq<string>, len: int)
    requires Turning(x, done, 0, len)
    ensures Reversed(x) == done + [x[..len]]
  {
    NoDotStart(x[..len]);
    LastLabel(x[..len]);
  }

  lemma {:induction false} FlatPush(q: seq<string>, l: string)
    ensures Flat(q + [l]) == Flat(q) + l + "."
  {
    assert (q + [l])[..|q|] == q;
  }

  /** The part of ngx_hash_add_key that turns a pattern ".x" (skip 1) or "*.x" (skip 2). */
  method TurnKey(key: string, skip: nat) returns (p: string)
    requires (skip == 1 && |key| > 1 && key[0] == '.') || (skip == 2 && |key| > 2 && key[0] == '*' && key[1] == '.')
    ensures p == KeyOf(key[skip..], skip == 2)
  {
    hide Reversed, Turning, Flat;
    ghost var x := key[skip..];
    ghost var done: seq<string> := [];
    TurnStart(x);
    var len := 0;
    var i := |key| - 1;
    p := "";
    assert Flat([]) == "" by {
      FlatEmpty();
    }
    while i != 0
      invariant 0 <= i < |key| && 0 <= len && i + len < |key|
      invariant p == Flat(done)
      invariant i >= skip - 1 ==> Turning(x, done, i + 1 - skip, len)
      invariant i < skip - 1 ==> done == Reversed(x) && len == 0
    {
      if key[i] == '.' {
        ghost var l := key[i + 1..i + 1 + len];
        p := p + key[i + 1..i + 1 + len] + ".";
        FlatPush(done, l);
        if i >= skip {
          SliceOfDrop(key, skip, i + 1, i + 1 + len);
          TurnDot(x, done, i + 1 - skip, len);
        } else {
          SliceOfDrop(key, skip, skip, skip + len);
          TurnEnd(x, done, len);
        }
        done := done + [l];
        len := 0;
      } else {
        if i >= skip {
          TurnChar(x, done, i + 1 - skip, len);
        }
        len := len + 1;
      }
      i := i - 1;
    }
    if len != 0 {
      p := p + key[1..1 + len];
    }
    KeyTurned(x, skip == 2, done, len, p);
  }

  lemma SliceOfDrop(key: string, skip: nat, a: nat, b: nat)
    requires skip <= a <= b <= |key|
    ensures key[a..b] == key[skip..][a - skip..b - skip]
  {
  }

  lemma FlatEmpty()
    ensures Flat([]) == ""
  {
  }

  lemma {:induction false} KeyTurned(x: string, strict: bool, done: seq<string>, len: int, p: string)
    requires if strict then done == Reversed(x) && p == Flat(done) else Turning(x, done, 0, len) && p == Flat(done) + x[..len]
    ensures p == KeyOf(x, strict)
  {
    if !strict {
      TurnEnd(x, done, len);
      assert (done + [x[..len]])[..|done|] == done;
    }
  }

  // ---------------------------------------------------------------- what patterns mean

  predicate FullLabels(q: seq<string>) {
    forall k :: 0 <= k < |q| ==> q[k] != "" && '.' !in q[k]
  }

  lemma {:induction false} FlatLabels(q: seq<string>, s: string)
    requires FullLabels(q)
    ensures Labels(Flat(q) + s) == q + Labels(s)
    decreases |q|
  {
    hide DotAt;
    if q == [] {
      assert Flat(q) + s == s;
    } else {
      var q', l := q[..|q| - 1], q[|q| - 1];
      FlatLabels(q', l + "." + s);
      assert q == q' + [l];
      FlatPush(q', l);
      assert Flat(q) + s == Flat(q') + (l + "." + s);
      LabelThenDot(l, s);
      assert q' + ([l] + Labels(s)) == q + Labels(s);
    }
  }

  lemma {:induction false} LabelThenDot(l: string, s: string)
    requires l != "" && '.' !in l
    ensures Labels(l + "." + s) == [l] + Labels(s)
  {
    var t := l + "." + s;
    assert t[|l|] == '.';
    assert forall k :: 0 <= k < |l| ==> t[k] == l[k];
    assert DotAt(t) == |l|;
    assert t[..|l|] == l && t[|l| + 1..] == s;
  }

  lemma {:induction false} BareLabel(l: string)
    requires l != "" && '.' !in l
    ensures Labels(l) == [l] && !Strict(l)
  {
    assert DotAt(l) == |l|;
  }

  /** The key of a pattern has its labels from the last to the first. */
  lemma {:induction false} KeyLabels(x: string, strict: bool)
    requires FullLabels(Reversed(x))
    ensures Labels(KeyOf(x, strict)) == Reversed(x) && Strict(KeyOf(x, strict)) == strict
  {
    hide Reversed;
    hide DotAt;
    var q := Reversed(x);
    var q', l := q[..|q| - 1], q[|q| - 1];
    assert q == q' + [l];
    if strict {
      FlatLabels(q, "");
      assert Flat(q) + "" == Flat(q);
    } else {
      FlatLabels(q', l);
      BareLabel(l);
      var key := Flat(q') + l;
      assert key[|key| - 1] == l[|l| - 1];
    }
  }

  /** The key of "*.x" suits exactly the names that end in a dot and x, and the key of ".x" those
      and x itself. */
  lemma {:induction false} PatternMeans(x: string, strict: bool, name: string)
    requires FullLabels(Reversed(x))
    ensures Suits(false, KeyOf(x, strict), Reversed(name)) <==> if strict then Below(name, x) else Within(name, x)
  {
    KeyLabels(x, strict);
    SuffixIsPrefix(x, name);
  }

  /** "*.x" (strict) or ".x", with its value. */
  datatype Pattern = Pattern(x: string, strict: bool, value: nat)

  ghost predicate Matches(p: Pattern, name: string) {
    if p.strict then Below(name, p.x) else Within(name, p.x)
  }

  /** The names given to ngx_hash_wildcard_init are the patterns, turned. */
  ghost predicate Turned(patterns: seq<Pattern>, names: seq<Name>) {
    |names| == |patterns| && forall i :: 0 <= i < |patterns| ==>
      FullLabels(Reversed(patterns[i].x)) && names[i] == Name(KeyOf(patterns[i].x, patterns[i].strict), patterns[i].value)
  }

  ghost predicate LongestMatch(patterns: seq<Pattern>, i: nat, name: string)
    requires i < |patterns|
  {
    Matches(patterns[i], name)
    && forall j :: 0 <= j < |patterns| && Matches(patterns[j], name) ==> |patterns[j].x| <= |patterns[i].x|
  }

  lemma {:induction false} MoreLabelsIsLonger(x: string, y: string, name: string)
    requires Within(name, x) && Within(name, y) && |Reversed(x)| <= |Reversed(y)|
    ensures |x| <= |y|
  {
    SuffixIsPrefix(x, name);
    SuffixIsPrefix(y, name);
    assert Reversed(x) <= Reversed(y);
    SuffixIsPrefix(x, y);
  }

  /** A search in the built hash gives the value of the longest matching pattern, and nothing if
      no pattern matches. */
  lemma {:induction false} LongestWildcardWins(patterns: seq<Pattern>, names: seq<Name>, t: Table, name: string)
    requires Turned(patterns, names) && Serves(false, t, names)
    ensures match Find(false, t, Reversed(name))
            case None => forall i :: 0 <= i < |patterns| ==> !Matches(patterns[i], name)
            case Some(v) => exists i :: 0 <= i < |patterns| && patterns[i].value == v && LongestMatch(patterns, i, name)
  {
    hide Find, KeyOf, Reversed, Matches, Labels;
    var q := Reversed(name);
    forall i | 0 <= i < |patterns| ensures Suits(false, names[i].key, q) == Matches(patterns[i], name) {
      PatternSuits(patterns[i], names[i].key, name);
    }
    var r := Find(false, t, q);
    assert IsBest(false, names, q, r);
    if r.Some? {
      var i :| 0 <= i < |names| && names[i].value == r.v && Suits(false, names[i].key, q) && Beats(false, names, i, q);
      forall j | 0 <= j < |patterns| && Matches(patterns[j], name) ensures |patterns[j].x| <= |patterns[i].x| {
        assert Suits(false, names[j].key, q);
        NotLongerThan(patterns[j], patterns[i], name);
      }
      assert LongestMatch(patterns, i, name);
    }
  }

  lemma {:induction false} PatternSuits(p: Pattern, key: string, name: string)
    requires FullLabels(Reversed(p.x)) && key == KeyOf(p.x, p.strict)
    ensures Suits(false, key, Reversed(name)) == Matches(p, name)
  {
    PatternMeans(p.x, p.strict, name);
  }

  lemma NotLongerThan(a: Pattern, b: Pattern, name: string)
    requires FullLabels(Reversed(a.x)) && FullLabels(Reversed(b.x)) && Matches(a, name) && Matches(b, name)
    requires |Labels(KeyOf(a.x, a.strict))| <= |Labels(KeyOf(b.x, b.strict))|
    ensures |a.x| <= |b.x|
  {
    KeyLabels(a.x, a.strict);
    KeyLabels(b.x, b.strict);
    MoreLabelsIsLonger(a.x, b.x, name);
  }
}
